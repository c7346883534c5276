/** The kanban board: task files in column directories, with ids allocated by scanning their names. */
module Kanban {
  import opened Wrappers
  import opened Text

  // ----- numbers in file names -----

  const MAX_INT: int := 0x7FFF_FFFF_FFFF_FFFF

  predicate IsDigit(c: char) {
    '0' <= c <= '9'
  }

  function DigitChar(d: nat): (c: char)
    requires d < 10
    ensures IsDigit(c) && c as int - '0' as int == d
  {
    '0' + d as char
  }

  predicate AllDigits(s: string) {
    forall i :: 0 <= i < |s| ==> IsDigit(s[i])
  }

  /** The number that the first `n` digits write. */
  function Value(s: string, n: nat): nat
    requires n <= |s| && AllDigits(s)
  {
    if n == 0 then 0 else 10 * Value(s, n - 1) + (s[n - 1] as int - '0' as int)
  }

  /** strconv.Atoi on 64 bits: an optional sign and at least one digit. */
  function Atoi(s: string): Option<int> {
    var signed := s != "" && (s[0] == '-' || s[0] == '+');
    var digits := if signed then s[1..] else s;
    if digits == "" || !AllDigits(digits) then None
    else
      var a: int := Value(digits, |digits|);
      var v := if signed && s[0] == '-' then -a else a;
      if -MAX_INT - 1 <= v <= MAX_INT then Some(v) else None
  }

  function Decimal(n: nat): (s: string)
    ensures s != "" && AllDigits(s)
  {
    if n < 10 then [DigitChar(n)] else Decimal(n / 10) + [DigitChar(n % 10)]
  }

  function Zeros(n: int): (s: string)
    ensures |s| == if n < 0 then 0 else n
    ensures forall i :: 0 <= i < |s| ==> s[i] == '0'
  {
    seq(if n < 0 then 0 else n, _ => '0')
  }

  /** fmt's "%03d". */
  function Pad3(n: int): string {
    if n >= 0 then Zeros(3 - |Decimal(n)|) + Decimal(n) else "-" + Zeros(2 - |Decimal(-n)|) + Decimal(-n)
  }

  lemma {:induction false} ValueOfPrefix(a: string, b: string, n: nat)
    requires AllDigits(a + b) && AllDigits(a) && n <= |a|
    ensures Value(a + b, n) == Value(a, n)
  {
    if n > 0 { ValueOfPrefix(a, b, n - 1); }
  }

  lemma {:induction false} ValueOfDecimal(n: nat)
    ensures Value(Decimal(n), |Decimal(n)|) == n
  {
    if n < 10 {
      assert Value(Decimal(n), 0) == 0;
    } else {
      var a, b := Decimal(n / 10), [DigitChar(n % 10)];
      ValueOfDecimal(n / 10);
      ValueOfPrefix(a, b, |a|);
      assert (a + b)[|a|] == b[0];
    }
  }

  lemma {:induction false} ValueAfterZeros(z: string, s: string, n: nat)
    requires AllDigits(z + s) && AllDigits(s) && n <= |s| && forall i :: 0 <= i < |z| ==> z[i] == '0'
    ensures Value(z + s, |z| + n) == Value(s, n)
  {
    if n > 0 {
      ValueAfterZeros(z, s, n - 1);
      assert (z + s)[|z| + n - 1] == s[n - 1];
    } else {
      ZeroValue(z, s, |z|);
    }
  }

  lemma {:induction false} ZeroValue(z: string, s: string, k: nat)
    requires AllDigits(z + s) && k <= |z| && forall i :: 0 <= i < |z| ==> z[i] == '0'
    ensures Value(z + s, k) == 0
  {
    if k > 0 { ZeroValue(z, s, k - 1); }
  }

  /** Reading back a zero-padded number gives the number. */
  lemma AtoiOfPad3(n: nat)
    requires n <= MAX_INT
    ensures Atoi(Pad3(n)) == Some(n) && AllDigits(Pad3(n))
  {
    var z, d := Zeros(3 - |Decimal(n)|), Decimal(n);
    assert AllDigits(z + d);
    ValueAfterZeros(z, d, |d|);
    ValueOfDecimal(n);
    assert IsDigit((z + d)[0]);
  }

  lemma {:induction false} DecimalLength(n: nat)
    ensures |Decimal(n)| == 1 <==> n < 10
    ensures |Decimal(n)| <= 2 <==> n < 100
    ensures |Decimal(n)| <= 3 <==> n < 1000
    ensures n > 0 ==> Decimal(n)[0] != '0'
  {
    if n >= 10 { DecimalLength(n / 10); }
  }

  /** The padding: three digits below a thousand, and from there on just the number. */
  lemma Pad3IsWide(n: nat)
    ensures n < 1000 ==> |Pad3(n)| == 3
    ensures n >= 1000 ==> Pad3(n) == Decimal(n)
  {
    DecimalLength(n);
    if n >= 1000 { assert Zeros(0) + Decimal(n) == Decimal(n); }
  }

  /** What is read as a number: digits, with a sign or without, within 64 bits. */
  lemma AtoiReadsNumbers(n: int)
    requires n >= 0
    ensures Atoi(Decimal(n)) == (if n <= MAX_INT then Some(n) else None)
    ensures Atoi("+" + Decimal(n)) == (if n <= MAX_INT then Some(n) else None)
    ensures Atoi("-" + Decimal(n)) == (if n <= MAX_INT + 1 then Some(-n) else None)
  {
    var d := Decimal(n);
    ValueOfDecimal(n);
    assert IsDigit(d[0]);
    assert ("+" + d)[1..] == d && ("-" + d)[1..] == d;
  }

  /** And nothing else: without a digit, or with another character after the sign, there is no number. */
  lemma AtoiReadsNothingElse(s: string, i: nat)
    ensures Atoi("") == None && Atoi("+") == None && Atoi("-") == None
    ensures i < |s| && !IsDigit(s[i]) && (i > 0 || (s[0] != '+' && s[0] != '-')) ==> Atoi(s) == None
  {
    if i < |s| && !IsDigit(s[i]) && (i > 0 || (s[0] != '+' && s[0] != '-')) {
      var signed := s[0] == '-' || s[0] == '+';
      if signed { assert s[1..][i - 1] == s[i]; }
    }
  }

  /** Only a file with the suffix carries a number, and an id that begins with a hyphen carries none. */
  lemma NumberNeedsSuffix(file: string)
    ensures !HasSuffix(file, ".md") ==> Number(file) == None
    ensures HasPrefix(file, "-") ==> Number(file) == None
  {
    if HasPrefix(file, "-") && HasSuffix(file, ".md") {
      var s := TrimSuffix(file, ".md");
      assert file[0] == '-' && |file| > 3;
      assert s[0..1] == "-";
      FirstAt(s, "-", 0);
      assert SplitN(s, "-", 2)[0] == "";
    }
  }

  /** The number a task file carries: its name up to the first hyphen. */
  function Number(file: string): Option<int> {
    if HasSuffix(file, ".md") then Atoi(SplitN(TrimSuffix(file, ".md"), "-", 2)[0]) else None
  }

  function FileOf(id: string): string {
    id + ".md"
  }

  /** The id of a new task: its number and, unless the title yields none, a slug. */
  function NewId(n: int, slug: string): string {
    if slug == "" then Pad3(n) else Pad3(n) + "-" + slug
  }

  /** The id is the padded number, and the slug after a hyphen if there is one. */
  lemma NewIdSays(n: int, slug: string)
    ensures Pad3(n) <= NewId(n, slug)
    ensures NewId(n, slug)[|Pad3(n)|..] == if slug == "" then "" else "-" + slug
  {
    Assoc(Pad3(n), "-", slug);
    DropFirst(Pad3(n), "-" + slug);
    DropFirst(Pad3(n), "");
    assert Pad3(n) + "" == Pad3(n);
  }

  lemma DropFirst(a: string, b: string)
    ensures a <= a + b && (a + b)[|a|..] == b
  {}

  lemma SuffixOfFile(id: string)
    ensures HasSuffix(FileOf(id), ".md") && TrimSuffix(FileOf(id), ".md") == id
  {
    var f := FileOf(id);
    assert f[|f| - 3..] == ".md" && f[..|f| - 3] == id;
  }

  /** The number put into a new file name is the number read from it, whatever the slug. */
  lemma NumberOfNewId(n: nat, slug: string)
    requires n <= MAX_INT
    ensures Number(FileOf(NewId(n, slug))) == Some(n)
  {
    var p := Pad3(n);
    AtoiOfPad3(n);
    SuffixOfFile(NewId(n, slug));
    assert '-' !in p by {
      assert forall i :: 0 <= i < |p| ==> p[i] != '-';
    }
    if slug == "" {
      SplitCharNone(p, '-');
    } else {
      SplitChar(p, '-', slug);
      var s := p + "-" + slug;
      assert s[..|p|] == p && s[|p| + 1..] == slug;
      assert SplitN(s, "-", 2)[0] == p;
    }
  }

  // ----- the board as directories of files -----

  /** The files of one directory: names and contents. */
  type Column = map<string, string>

  /** The name of a directory: one of the board's four columns, or any other. */
  datatype Dir = Backlog | InProgress | Review | Finished | OtherDir(name: string)

  type Dirs = map<Dir, Column>

  const COLUMNS: seq<Dir> := [Backlog, InProgress, Review, Finished]

  type Numbering = string -> Option<int>

  /** The numbers that the files of a board carry. */
  ghost function NumbersBy(num: Numbering, dirs: Dirs): set<int> {
    set d, f | d in dirs && f in dirs[d] && num(f).Some? :: num(f).value
  }

  ghost function Numbers(dirs: Dirs): set<int> {
    NumbersBy(Number, dirs)
  }

  ghost predicate IsMax(s: set<int>, m: int) {
    m >= 0 && (m == 0 || m in s) && forall x :: x in s ==> x <= m
  }

  lemma {:induction false} MaxExists(s: set<int>) returns (m: int)
    ensures IsMax(s, m)
  {
    m := 0;
    var rest := s;
    while exists x :: x in rest
      invariant rest <= s && m >= 0 && (m == 0 || m in s) && forall x :: x in s && x !in rest ==> x <= m
      decreases |rest|
    {
      var x :| x in rest;
      if x > m { m := x; }
      rest := rest - {x};
    }
  }

  /** The largest element, but at least 0. */
  ghost function MaxOf(s: set<int>): (m: int)
    ensures IsMax(s, m)
  {
    assert exists m :: IsMax(s, m) by { var m := MaxExists(s); }
    var m :| IsMax(s, m);
    m
  }

  /** Adding one on 64 bits. */
  function Increment(n: int): int {
    if n == MAX_INT then -MAX_INT - 1 else n + 1
  }

  ghost function NextNumber(dirs: Dirs): int {
    Increment(MaxOf(Numbers(dirs)))
  }

  /** After the largest 64-bit number comes the smallest, in an id that begins with a minus and carries no number. */
  lemma NumbersWrapAround(dirs: Dirs, slug: string)
    requires MaxOf(Numbers(dirs)) == MAX_INT
    ensures NextNumber(dirs) == -MAX_INT - 1
    ensures HasPrefix(FileOf(NewId(NextNumber(dirs), slug)), "-")
    ensures Number(FileOf(NewId(NextNumber(dirs), slug))) == None
  {
    var file := FileOf(NewId(NextNumber(dirs), slug));
    assert file[0] == Pad3(NextNumber(dirs))[0] == '-';
    assert file[..1] == "-";
    NumberNeedsSuffix(file);
  }

  ghost predicate Carries(files: Column, n: int) {
    exists f :: f in files && Number(f) == Some(n)
  }

  lemma MaxIsUnique(dirs: Dirs, m: int)
    requires m >= 0 && (m == 0 || exists d :: d in dirs && Carries(dirs[d], m))
    requires forall d, n :: d in dirs && Carries(dirs[d], n) ==> n <= m
    ensures m == MaxOf(Numbers(dirs))
  {
    var s := Numbers(dirs);
    forall n | n in s ensures n <= m {
      var d, f :| d in dirs && f in dirs[d] && Number(f).Some? && Number(f).value == n;
      assert Carries(dirs[d], n);
    }
    if m != 0 {
      var d :| d in dirs && Carries(dirs[d], m);
      var f :| f in dirs[d] && Number(f) == Some(m);
      assert m in s;
    }
  }

  /** Scanning every file of every directory, in any order, finds the largest number. */
  method NextID(dirs: Dirs) returns (id: string)
    ensures id == Pad3(NextNumber(dirs))
  {
    var maxID := 0;
    var names := dirs.Keys;
    while names != {}
      invariant names <= dirs.Keys && maxID >= 0
      invariant maxID == 0 || exists d :: d in dirs && Carries(dirs[d], maxID)
      invariant forall d, n :: d in dirs && d !in names && Carries(dirs[d], n) ==> n <= maxID
      decreases |names|
    {
      var name :| name in names;
      maxID := ScanColumn(dirs[name], maxID);
      names := names - {name};
    }
    MaxIsUnique(dirs, maxID);
    id := Pad3(Increment(maxID));
  }

  method ScanColumn(files: Column, sofar: int) returns (maxID: int)
    requires sofar >= 0
    ensures maxID >= sofar && (maxID == sofar || Carries(files, maxID))
    ensures forall n :: Carries(files, n) ==> n <= maxID
  {
    maxID := sofar;
    var todo := files.Keys;
    while todo != {}
      invariant todo <= files.Keys && maxID >= sofar
      invariant maxID == sofar || exists f :: f in files && f !in todo && Number(f) == Some(maxID)
      invariant forall f :: f in files && f !in todo && Number(f).Some? ==> Number(f).value <= maxID
      decreases |todo|
    {
      var f :| f in todo;
      todo := todo - {f};
      if !HasSuffix(f, ".md") { continue; }
      var parts := SplitN(TrimSuffix(f, ".md"), "-", 2);
      var num := Atoi(parts[0]);
      if num.Some? && num.value > maxID {
        maxID := num.value;
      }
    }
  }

  // ----- task files -----

  datatype Header = Header(title: string, assignee: string, priority: string, created: string, due: string)

  datatype Task = Task(id: string, header: Header, description: string, status: Dir)

  /** The YAML library that writes and reads a task's header. */
  datatype Codec = Codec(encode: Header -> string, decode: string -> Option<Header>)

  datatype BoardError = NotFound | MissingFrontmatter | BadHeader | IoFailure

  function Serialize(codec: Codec, task: Task): string {
    "---\n" + codec.encode(task.header) + "---\n" + (if task.description == "" then "" else "\n" + task.description)
  }

  function ParseTask(codec: Codec, id: string, status: Dir, content: string): Result<Task, BoardError> {
    var parts := SplitN(content, DASHES, 3);
    if |parts| < 3 then Err(MissingFrontmatter)
    else match codec.decode(parts[1])
      case None => Err(BadHeader)
      case Some(header) => Ok(Task(id, header, TrimSpace(parts[2]), status))
  }

  /** When a file cannot be read: without the dashes twice, or with a header that does not decode. */
  lemma ParseTaskFails(codec: Codec, id: string, status: Dir, content: string)
    ensures ParseTask(codec, id, status, content) == Err(MissingFrontmatter) <==> !TwoDashes(content)
    ensures TwoDashes(content) ==>
              && |SplitN(content, DASHES, 3)| == 3
              && (codec.decode(SplitN(content, DASHES, 3)[1]) == None <==>
                    ParseTask(codec, id, status, content) == Err(BadHeader))
              && (codec.decode(SplitN(content, DASHES, 3)[1]).Some? <==> ParseTask(codec, id, status, content).Ok?)
  {
    SplitAtDashes(content);
  }

  /** The library writes whole lines, and reads this header back from them. */
  ghost predicate Encodes(codec: Codec, header: Header) {
    var text := codec.encode(header);
    && text != "" && text[|text| - 1] == '\n'
    && codec.decode("\n" + text) == Some(header)
  }

  function BodyText(description: string): string {
    "\n" + if description == "" then "" else "\n" + description
  }

  lemma BodyTrims(description: string)
    ensures TrimSpace(BodyText(description)) == description <==> Trimmed(description)
  {
    var a, b := TrimSplit(BodyText(description));
    if Trimmed(description) {
      if description == "" {
        TrimPad("\n", "", "");
        assert "\n" + "" + "" == "\n" + "";
      } else {
        TrimPad("\n\n", description, "");
        assert "\n\n" + description + "" == "\n" + ("\n" + description);
      }
    }
  }

  /** A task's file is the dashes, its header, the dashes again and its description. */
  lemma FileShape(codec: Codec, task: Task)
    ensures Serialize(codec, task)
         == DASHES + (("\n" + codec.encode(task.header)) + DASHES + BodyText(task.description))
  {
    var header := "\n" + codec.encode(task.header);
    var d := if task.description == "" then "" else "\n" + task.description;
    assert "---\n" == DASHES + "\n";
    Assoc(DASHES, "\n", codec.encode(task.header));
    Assoc(DASHES + header, DASHES + "\n", d);
    Assoc(DASHES, "\n", d);
    Assoc(DASHES + header, DASHES, "\n" + d);
    Assoc(DASHES, header, DASHES);
    Assoc(DASHES, header + DASHES, "\n" + d);
  }

  lemma DashesAfterLineBreak(text: string)
    ensures Has("\n" + text, DASHES) <==> Has(text, DASHES)
  {
    HasFirstChar("", DASHES);
    HasSeparated("", '\n', text, DASHES);
    assert "" + "\n" + text == "\n" + text;
  }

  /**
   A task is read back from its file exactly when its encoded header holds no dashes and its
   description is trimmed.
   */
  lemma TaskRoundTrip(codec: Codec, task: Task)
    requires Encodes(codec, task.header)
    ensures ParseTask(codec, task.id, task.status, Serialize(codec, task)) == Ok(task)
       <==> !Has(codec.encode(task.header), DASHES) && Trimmed(task.description)
  {
    var header, d := "\n" + codec.encode(task.header), task.description;
    FileShape(codec, task);
    DashesAfterLineBreak(codec.encode(task.header));
    BodyTrims(d);
    if !Has(header, DASHES) {
      SplitDocument(header, BodyText(d));
    } else if d == "" {
      assert BodyText(d) == "\n" + d;
      DashesInHeader(header, "\n", d);
    } else if Trimmed(d) {
      assert BodyText(d) == "\n\n" + d;
      DashesInHeader(header, "\n\n", d);
    } else {
      var parts := SplitN(Serialize(codec, task), DASHES, 3);
      if |parts| == 3 { var a, b := TrimSplit(parts[2]); }
    }
  }

  /** A title with dashes in it is such a header: the text after them is taken for the description. */
  lemma DashesInTitle(codec: Codec, task: Task, before: string, after: string)
    requires Encodes(codec, task.header) && codec.encode(task.header) == before + task.header.title + after
    requires Has(task.header.title, DASHES)
    ensures ParseTask(codec, task.id, task.status, Serialize(codec, task)) != Ok(task)
  {
    HasInside(before, task.header.title, after, DASHES);
    TaskRoundTrip(codec, task);
  }

  // ----- slugs -----

  function SlugChar(c: char): string {
    if 'a' <= c <= 'z' || '0' <= c <= '9' then [c] else if c == ' ' || c == '-' || c == '_' then "-" else ""
  }

  /** Letters and digits stay, spaces, hyphens and underscores become hyphens, all else is dropped. */
  lemma SlugCharIs(c: char)
    ensures 'a' <= c <= 'z' || '0' <= c <= '9' ==> SlugChar(c) == [c]
    ensures c == ' ' || c == '-' || c == '_' ==> SlugChar(c) == "-"
    ensures SlugChar(c) == "" <==> !IsSlugChar(c) && c != ' ' && c != '_'
  {}

  /** Each character counts as its lower case does. */
  lemma {:induction false} SlugOfLowered(title: string, low: string, n: nat, lower: char -> char)
    requires n <= |title| == |low| && forall i :: 0 <= i < |title| ==> low[i] == lower(title[i])
    ensures SlugChars(title, n, lower) == SlugChars(low, n, c => c)
    ensures n > 0 ==> SlugChars(title, n, lower) == SlugChars(title, n - 1, lower) + SlugChar(low[n - 1])
  {
    if n > 0 { SlugOfLowered(title, low, n - 1, lower); }
  }

  /** The slug characters of two words with a space between are theirs, with a hyphen between. */
  lemma {:induction false} SlugOfWords(a: string, b: string, n: nat, lower: char -> char)
    requires n <= |b| && lower(' ') == ' '
    ensures SlugChars(a + " " + b, |a| + 1 + n, lower) == SlugChars(a, |a|, lower) + "-" + SlugChars(b, n, lower)
  {
    var t := a + " " + b;
    if n == 0 {
      SlugPrefix(a, " " + b, |a|, lower);
      Assoc(a, " ", b);
      assert t[|a|] == ' ';
    } else {
      SlugOfWords(a, b, n - 1, lower);
      assert t[|a| + n] == b[n - 1];
      Assoc(SlugChars(a, |a|, lower) + "-", SlugChars(b, n - 1, lower), SlugChar(lower(b[n - 1])));
    }
  }

  lemma {:induction false} SlugPrefix(a: string, b: string, n: nat, lower: char -> char)
    requires n <= |a|
    ensures SlugChars(a + b, n, lower) == SlugChars(a, n, lower)
  {
    if n > 0 { SlugPrefix(a, b, n - 1, lower); }
  }

  /** The slug characters of the first `n` characters, lower-cased. */
  function SlugChars(title: string, n: nat, lower: char -> char): (s: string)
    requires n <= |title|
    ensures forall i :: 0 <= i < |s| ==> IsSlugChar(s[i])
  {
    if n == 0 then "" else SlugChars(title, n - 1, lower) + SlugChar(lower(title[n - 1]))
  }

  predicate IsSlugChar(c: char) {
    'a' <= c <= 'z' || '0' <= c <= '9' || c == '-'
  }

  /** `t` is `s` without the hyphens at its ends. */
  ghost predicate TrimmedOfHyphens(s: string, t: string) {
    && (t != "" ==> t[0] != '-' && t[|t| - 1] != '-')
    && exists i, j :: 0 <= i <= j <= |s| && t == s[i..j]
         && (forall k :: 0 <= k < i ==> s[k] == '-') && (forall k :: j <= k < |s| ==> s[k] == '-')
  }

  method TrimHyphens(s: string) returns (t: string)
    ensures TrimmedOfHyphens(s, t)
  {
    var i, j := 0, |s|;
    while i < j && s[i] == '-'
      invariant 0 <= i <= j == |s| && forall k :: 0 <= k < i ==> s[k] == '-'
    {
      i := i + 1;
    }
    while i < j && s[j - 1] == '-'
      invariant 0 <= i <= j <= |s| && (i < |s| ==> i < j || s[i] == '-')
      invariant forall k :: 0 <= k < i ==> s[k] == '-'
      invariant forall k :: j <= k < |s| ==> s[k] == '-'
      invariant i < j ==> s[i] != '-'
    {
      j := j - 1;
    }
    t := s[i..j];
  }

  /** The slug of a title: its slug characters without outer hyphens, cut to 30 (the cut may leave a hyphen last). */
  ghost predicate IsSlug(title: string, lower: char -> char, slug: string) {
    exists t :: TrimmedOfHyphens(SlugChars(title, |title|, lower), t) && slug == if |t| > 30 then t[..30] else t
  }

  /** `lower` is the library's lower-casing of a character. */
  method Slugify(title: string, lower: char -> char) returns (slug: string)
    ensures |slug| <= 30 && (forall i :: 0 <= i < |slug| ==> IsSlugChar(slug[i])) && (slug != "" ==> slug[0] != '-')
    ensures IsSlug(title, lower, slug)
  {
    var all := "";
    for i := 0 to |title|
      invariant all == SlugChars(title, i, lower)
    {
      var r := lower(title[i]);
      if 'a' <= r <= 'z' || '0' <= r <= '9' {
        all := all + [r];
      } else if r == ' ' || r == '-' || r == '_' {
        all := all + "-";
      }
    }
    var t := TrimHyphens(all);
    slug := t;
    if |slug| > 30 { slug := slug[..30]; }
  }

  /** A slug ends in a hyphen exactly when it was cut, and its thirtieth character is one. */
  lemma SlugEndsInHyphenExactly(s: string, t: string)
    requires TrimmedOfHyphens(s, t)
    ensures var slug := if |t| > 30 then t[..30] else t;
            (slug != "" && slug[|slug| - 1] == '-') <==> |t| > 30 && t[29] == '-'
  {}

  lemma {:induction false} SlugCharsKept(title: string, n: nat, lower: char -> char)
    requires n <= |title| && forall i :: 0 <= i < |title| ==> IsSlugChar(title[i]) && lower(title[i]) == title[i]
    ensures SlugChars(title, n, lower) == title[..n]
  {
    if n > 0 {
      SlugCharsKept(title, n - 1, lower);
      assert title[..n] == title[..n - 1] + [title[n - 1]];
    }
  }

  /** Such a title: 29 letters, a hyphen, and a letter more. */
  lemma CutSlugWithHyphen(lower: char -> char, slug: string)
    requires lower('a') == 'a' && lower('-') == '-'
    requires IsSlug(seq(29, _ => 'a') + "-a", lower, slug)
    ensures slug == seq(29, _ => 'a') + "-"
  {
    var title := seq(29, _ => 'a') + "-a";
    SlugCharsKept(title, |title|, lower);
    assert title[..|title|] == title;
    var t :| TrimmedOfHyphens(title, t) && slug == if |t| > 30 then t[..30] else t;
    var i, j :| 0 <= i <= j <= |title| && t == title[i..j]
      && (forall k :: 0 <= k < i ==> title[k] == '-') && (forall k :: j <= k < |title| ==> title[k] == '-');
    assert i == 0 by { assert title[0] == 'a'; }
    assert j == |title| by { assert title[|title| - 1] == 'a'; }
    assert t == title;
    assert title[..30] == seq(29, _ => 'a') + "-";
  }

  // ----- the board's operations -----

  function FindFrom(dirs: Dirs, file: string, k: nat): (r: Option<Dir>)
    requires k <= |COLUMNS|
    ensures r.Some? ==> r.value in COLUMNS && r.value in dirs && file in dirs[r.value]
    ensures r.None? ==> forall i :: k <= i < |COLUMNS| && COLUMNS[i] in dirs ==> file !in dirs[COLUMNS[i]]
    ensures r.Some? ==> exists i :: k <= i < |COLUMNS| && COLUMNS[i] == r.value
                          && forall j :: k <= j < i && COLUMNS[j] in dirs ==> file !in dirs[COLUMNS[j]]
    decreases |COLUMNS| - k
  {
    if k == |COLUMNS| then None
    else if COLUMNS[k] in dirs && file in dirs[COLUMNS[k]] then Some(COLUMNS[k])
    else FindFrom(dirs, file, k + 1)
  }

  /** The first column, in the board's order, that holds a task. */
  function Find(dirs: Dirs, id: string): Option<Dir> {
    FindFrom(dirs, FileOf(id), 0)
  }

  /** Renaming a file into another directory, over a file of that name. */
  function Moved(dirs: Dirs, from: Dir, dest: Dir, file: string): Dirs
    requires from in dirs && dest in dirs && file in dirs[from]
  {
    var rest := dirs[from := dirs[from] - {file}];
    rest[dest := rest[dest][file := dirs[from][file]]]
  }

  datatype Op = AddTask(slug: string, content: string) | MoveTask(id: string, dest: Dir) | DeleteTask(id: string)

  /** A stored task that can be read, and its column. */
  function Located(codec: Codec, dirs: Dirs, id: string): (r: Result<(Dir, Task), BoardError>)
    ensures r.Ok? ==> r.value.0 in COLUMNS && r.value.0 in dirs && FileOf(id) in dirs[r.value.0]
    ensures r.Ok? ==> Find(dirs, id) == Some(r.value.0)
    ensures r.Ok? ==> r.value.1.status == r.value.0 && r.value.1.id == id
  {
    match Find(dirs, id)
    case None => Err(NotFound)
    case Some(c) =>
      match ParseTask(codec, id, c, dirs[c][FileOf(id)])
      case Err(e) => Err(e)
      case Ok(task) => Ok((c, task))
  }

  ghost function Step(codec: Codec, dirs: Dirs, op: Op): Dirs {
    match op
    case AddTask(slug, content) =>
      var backlog := Backlog;
      if backlog !in dirs then dirs
      else dirs[backlog := dirs[backlog][FileOf(NewId(NextNumber(dirs), slug)) := content]]
    case MoveTask(id, dest) =>
      var l := Located(codec, dirs, id);
      if l.Ok? && dest in dirs then Moved(dirs, l.value.0, dest, FileOf(id)) else dirs
    case DeleteTask(id) =>
      var l := Located(codec, dirs, id);
      if l.Ok? then dirs[l.value.0 := dirs[l.value.0] - {FileOf(id)}] else dirs
  }

  class Board {
    const codec: Codec
    var dirs: Dirs

    constructor (codec: Codec)
      ensures this.codec == codec && dirs == map[]
    {
      this.codec := codec;
      dirs := map[];
    }

    /** Creates the columns that are missing. */
    method Init()
      modifies this`dirs
      ensures dirs.Keys == old(dirs).Keys + (set c | c in COLUMNS)
      ensures forall c :: c in dirs ==> dirs[c] == if c in old(dirs) then old(dirs)[c] else map[]
    {
      for i := 0 to |COLUMNS|
        invariant dirs.Keys == old(dirs).Keys + (set c | c in COLUMNS[..i])
        invariant forall c :: c in dirs ==> dirs[c] == if c in old(dirs) then old(dirs)[c] else map[]
      {
        var col := COLUMNS[i];
        assert COLUMNS[..i + 1] == COLUMNS[..i] + [col];
        if col !in dirs { dirs := dirs[col := map[]]; }
      }
      assert COLUMNS[..|COLUMNS|] == COLUMNS;
    }

    method FindTask(id: string) returns (r: Result<Task, BoardError>)
      ensures var l := Located(codec, dirs, id);
              if l.Ok? then r == Ok(l.value.1) else r == Err(l.error)
    {
      var k := 0;
      while k < |COLUMNS|
        invariant k <= |COLUMNS| && FindFrom(dirs, FileOf(id), k) == Find(dirs, id)
      {
        var col := COLUMNS[k];
        if col in dirs && FileOf(id) in dirs[col] {
          r := ParseTask(codec, id, col, dirs[col][FileOf(id)]);
          return;
        }
        k := k + 1;
      }
      r := Err(NotFound);
    }

    /** `today` is the formatted date; ids are free of path separators. */
    method Add(title: string, description: string, assignee: string, priority: string, today: string,
               lower: char -> char)
        returns (r: Result<Task, BoardError>, ghost slug: string)
      modifies this`dirs
      ensures IsSlug(title, lower, slug)
      ensures r.Ok? <==> Backlog in old(dirs)
      ensures r.Ok? ==> r.value == Task(NewId(NextNumber(old(dirs)), slug),
                                        Header(title, assignee, priority, today, ""), description, Backlog)
      ensures r.Ok? ==> dirs == Step(codec, old(dirs), AddTask(slug, Serialize(codec, r.value)))
      ensures r.Err? ==> dirs == old(dirs)
    {
      var id := NextID(dirs);
      var s := Slugify(title, lower);
      slug := s;
      if s != "" { id := id + "-" + s; }
      var task := Task(id, Header(title, assignee, priority, today, ""), description, Backlog);
      var backlog := Backlog;
      if backlog !in dirs { return Err(IoFailure), slug; }
      dirs := dirs[backlog := dirs[backlog][FileOf(id) := Serialize(codec, task)]];
      r := Ok(task);
    }

    method Move(id: string, toColumn: Dir) returns (r: Option<BoardError>)
      modifies this`dirs
      ensures dirs == Step(codec, old(dirs), MoveTask(id, toColumn))
      ensures r == None <==> Located(codec, old(dirs), id).Ok? && toColumn in old(dirs)
      ensures r.Some? ==> r.value == if Located(codec, old(dirs), id).Err? then Located(codec, old(dirs), id).error
                                     else IoFailure
      ensures r != None ==> dirs == old(dirs)
    {
      var task := FindTask(id);
      if task.Err? { return Some(task.error); }
      if toColumn !in dirs { return Some(IoFailure); }
      var src, file := task.value.status, FileOf(id);
      var content := dirs[src][file];
      dirs := dirs[src := dirs[src] - {file}];
      dirs := dirs[toColumn := dirs[toColumn][file := content]];
      r := None;
    }

    method Delete(id: string) returns (r: Option<BoardError>)
      modifies this`dirs
      ensures dirs == Step(codec, old(dirs), DeleteTask(id))
      ensures r == None <==> Located(codec, old(dirs), id).Ok?
      ensures r.Some? ==> r.value == Located(codec, old(dirs), id).error
    {
      var task := FindTask(id);
      if task.Err? { return Some(task.error); }
      dirs := dirs[task.value.status := dirs[task.value.status] - {FileOf(id)}];
      r := None;
    }
  }

  // ----- what every operation keeps, for any way of numbering files -----

  ghost predicate FourColumns(dirs: Dirs) {
    forall c :: c in dirs <==> !c.OtherDir?
  }

  /** Every file has a positive number, and no two files the same. */
  ghost predicate DistinctBy(num: Numbering, dirs: Dirs) {
    && (forall c, f :: c in dirs && f in dirs[c] ==> num(f).Some? && num(f).value >= 1)
    && (forall c, f, d, g :: c in dirs && f in dirs[c] && d in dirs && g in dirs[d] && num(f) == num(g) ==>
          c == d && f == g)
  }

  lemma InNumbers(num: Numbering, dirs: Dirs, c: Dir, f: string)
    requires c in dirs && f in dirs[c] && num(f).Some?
    ensures num(f).value in NumbersBy(num, dirs)
  {}

  lemma FileWithNumber(num: Numbering, dirs: Dirs, n: int) returns (c: Dir, f: string)
    requires n in NumbersBy(num, dirs)
    ensures c in dirs && f in dirs[c] && num(f) == Some(n)
  {
    c, f :| c in dirs && f in dirs[c] && num(f).Some? && num(f).value == n;
  }

  lemma AddedKeeps(num: Numbering, dirs: Dirs, c: Dir, file: string, x: string)
    requires DistinctBy(num, dirs) && c in dirs && num(file).Some?
    requires num(file).value >= 1 && num(file).value !in NumbersBy(num, dirs)
    ensures var after := dirs[c := dirs[c][file := x]];
            && file !in dirs[c] && DistinctBy(num, after)
            && NumbersBy(num, after) == NumbersBy(num, dirs) + {num(file).value}
  {
    var after := dirs[c := dirs[c][file := x]];
    forall d, g | d in dirs && g in dirs[d] ensures num(g) != num(file) {
      InNumbers(num, dirs, d, g);
    }
    forall d, g ensures d in after && g in after[d] <==> (d in dirs && g in dirs[d]) || (d == c && g == file) {}
    var l, r := NumbersBy(num, after), NumbersBy(num, dirs) + {num(file).value};
    forall n | n in l ensures n in r {
      var d, g := FileWithNumber(num, after, n);
      if g != file { InNumbers(num, dirs, d, g); }
    }
    forall n | n in r ensures n in l {
      if n == num(file).value {
        InNumbers(num, after, c, file);
      } else {
        var d, g := FileWithNumber(num, dirs, n);
        InNumbers(num, after, d, g);
      }
    }
  }

  lemma OnlyThere(num: Numbering, dirs: Dirs, c: Dir, file: string, d: Dir)
    requires DistinctBy(num, dirs) && c in dirs && file in dirs[c] && d in dirs && file in dirs[d]
    ensures c == d
  {
    assert num(file) == num(file);
  }

  lemma MovedHolds(dirs: Dirs, from: Dir, dest: Dir, file: string, c: Dir, f: string)
    requires from in dirs && dest in dirs && file in dirs[from] && c in dirs
    ensures var after := Moved(dirs, from, dest, file);
            && c in after
            && (f in after[c] <==> if f == file then c == dest || (c != from && f in dirs[c]) else f in dirs[c])
  {}

  /** `after` has every other file where it was, and `file` only in `dest`. */
  ghost predicate OnlyMoved(dirs: Dirs, after: Dirs, dest: Dir, file: string) {
    && after.Keys == dirs.Keys
    && forall c, f :: c in dirs ==> (f in after[c] <==> if f == file then c == dest else f in dirs[c])
  }

  lemma MovedIsOnlyMoved(num: Numbering, dirs: Dirs, from: Dir, dest: Dir, file: string)
    requires DistinctBy(num, dirs) && from in dirs && dest in dirs && file in dirs[from]
    ensures OnlyMoved(dirs, Moved(dirs, from, dest, file), dest, file)
  {
    var after := Moved(dirs, from, dest, file);
    assert after.Keys == dirs.Keys;
    forall c, f | c in dirs ensures f in after[c] <==> if f == file then c == dest else f in dirs[c] {
      MovedHolds(dirs, from, dest, file, c, f);
      if f == file && f in dirs[c] { OnlyThere(num, dirs, from, file, c); }
    }
  }

  lemma MovedKeeps(num: Numbering, dirs: Dirs, from: Dir, dest: Dir, file: string)
    requires DistinctBy(num, dirs) && from in dirs && dest in dirs && file in dirs[from]
    ensures DistinctBy(num, Moved(dirs, from, dest, file)) && Moved(dirs, from, dest, file).Keys == dirs.Keys
    ensures NumbersBy(num, Moved(dirs, from, dest, file)) == NumbersBy(num, dirs)
  {
    MovedIsOnlyMoved(num, dirs, from, dest, file);
    StillDistinct(num, dirs, Moved(dirs, from, dest, file), from, dest, file);
    SameNumbers(num, dirs, Moved(dirs, from, dest, file), from, dest, file);
  }

  lemma StillDistinct(num: Numbering, dirs: Dirs, after: Dirs, from: Dir, dest: Dir, file: string)
    requires DistinctBy(num, dirs) && from in dirs && file in dirs[from] && OnlyMoved(dirs, after, dest, file)
    ensures DistinctBy(num, after)
  {
    forall c, f, d, g | c in after && f in after[c] && d in after && g in after[d] && num(f) == num(g)
      ensures c == d && f == g
    {
      var c0, d0 := if f == file then from else c, if g == file then from else d;
      assert f in dirs[c0] && g in dirs[d0];
    }
    forall c, f | c in after && f in after[c] ensures num(f).Some? && num(f).value >= 1 {
      assert f in dirs[if f == file then from else c];
    }
  }

  lemma SameNumbers(num: Numbering, dirs: Dirs, after: Dirs, from: Dir, dest: Dir, file: string)
    requires from in dirs && dest in dirs && file in dirs[from] && OnlyMoved(dirs, after, dest, file)
    ensures NumbersBy(num, after) == NumbersBy(num, dirs)
  {
    var l, r := NumbersBy(num, after), NumbersBy(num, dirs);
    forall n | n in l ensures n in r {
      var c, f := FileWithNumber(num, after, n);
      InNumbers(num, dirs, if f == file then from else c, f);
    }
    forall n | n in r ensures n in l {
      var c, f := FileWithNumber(num, dirs, n);
      InNumbers(num, after, if f == file then dest else c, f);
    }
  }

  lemma DeletedKeeps(num: Numbering, dirs: Dirs, c: Dir, file: string)
    requires DistinctBy(num, dirs) && c in dirs
    ensures var after := dirs[c := dirs[c] - {file}];
            DistinctBy(num, after) && NumbersBy(num, after) <= NumbersBy(num, dirs)
  {
    var after := dirs[c := dirs[c] - {file}];
    forall d, g ensures d in after && g in after[d] ==> d in dirs && g in dirs[d] {}
    forall n | n in NumbersBy(num, after) ensures n in NumbersBy(num, dirs) {
      var d, g := FileWithNumber(num, after, n);
      InNumbers(num, dirs, d, g);
    }
  }

  // ----- runs -----

  /** The four columns, and one positive number for each file, no two the same. */
  ghost predicate WellFormed(dirs: Dirs) {
    FourColumns(dirs) && DistinctBy(Number, dirs)
  }

  /** What one operation does to the numbers on a board. */
  ghost predicate NumbersAfter(op: Op, before: set<int>, after: set<int>) {
    match op
    case AddTask(_, _) => after == before + {MaxOf(before) + 1}
    case MoveTask(_, _) => after == before
    case DeleteTask(_) => after <= before
  }

  lemma AddKeeps(codec: Codec, dirs: Dirs, slug: string, content: string)
    requires FourColumns(dirs) && DistinctBy(Number, dirs) && MaxOf(Numbers(dirs)) < MAX_INT
    ensures var after := Step(codec, dirs, AddTask(slug, content));
            && FourColumns(after) && DistinctBy(Number, after)
            && Numbers(after) == Numbers(dirs) + {MaxOf(Numbers(dirs)) + 1}
  {
    var n := MaxOf(Numbers(dirs));
    var file := NextFile(slug, n + 1);
    AddStep(codec, dirs, slug, content, n);
    AddFile(Number, dirs, Step(codec, dirs, AddTask(slug, content)), file, content, n + 1);
  }

  lemma AddStep(codec: Codec, dirs: Dirs, slug: string, content: string, n: nat)
    requires Backlog in dirs && n < MAX_INT && n == MaxOf(Numbers(dirs))
    ensures Step(codec, dirs, AddTask(slug, content))
         == dirs[Backlog := dirs[Backlog][FileOf(NewId(n + 1, slug)) := content]]
  {}

  lemma NextFile(slug: string, n: nat) returns (file: string)
    requires n <= MAX_INT
    ensures file == FileOf(NewId(n, slug)) && Number(file) == Some(n)
  {
    file := FileOf(NewId(n, slug));
    NumberOfNewId(n, slug);
  }

  lemma AddFile(num: Numbering, dirs: Dirs, after: Dirs, file: string, content: string, n: int)
    requires FourColumns(dirs) && DistinctBy(num, dirs) && n == MaxOf(NumbersBy(num, dirs)) + 1 && num(file) == Some(n)
    requires after == dirs[Backlog := dirs[Backlog][file := content]]
    ensures FourColumns(after) && DistinctBy(num, after)
    ensures NumbersBy(num, after) == NumbersBy(num, dirs) + {n}
  {
    AddedKeeps(num, dirs, Backlog, file, content);
  }

  lemma MoveKeeps(codec: Codec, dirs: Dirs, id: string, dest: Dir)
    requires FourColumns(dirs) && DistinctBy(Number, dirs)
    ensures var after := Step(codec, dirs, MoveTask(id, dest));
            FourColumns(after) && DistinctBy(Number, after) && Numbers(after) == Numbers(dirs)
  {
    var l := Located(codec, dirs, id);
    if l.Ok? && dest in dirs { MovedKeeps(Number, dirs, l.value.0, dest, FileOf(id)); }
  }

  lemma DeleteKeeps(codec: Codec, dirs: Dirs, id: string)
    requires FourColumns(dirs) && DistinctBy(Number, dirs)
    ensures var after := Step(codec, dirs, DeleteTask(id));
            FourColumns(after) && DistinctBy(Number, after) && Numbers(after) <= Numbers(dirs)
  {
    var l := Located(codec, dirs, id);
    if l.Ok? { DeletedKeeps(Number, dirs, l.value.0, FileOf(id)); }
  }

  /** Every operation keeps a well-formed board well formed; an addition takes the number after the largest. */
  lemma StepKeeps(codec: Codec, dirs: Dirs, op: Op)
    requires WellFormed(dirs) && (op.AddTask? ==> MaxOf(Numbers(dirs)) < MAX_INT)
    ensures WellFormed(Step(codec, dirs, op)) && NumbersAfter(op, Numbers(dirs), Numbers(Step(codec, dirs, op)))
  {
    match op
    case AddTask(slug, content) => AddKeeps(codec, dirs, slug, content);
    case MoveTask(id, dest) => MoveKeeps(codec, dirs, id, dest);
    case DeleteTask(id) => DeleteKeeps(codec, dirs, id);
  }

  const EMPTY_BOARD: Dirs := map[Backlog := map[], InProgress := map[], Review := map[], Finished := map[]]

  /** The board after the first `n` operations of a run that starts with `Init`. */
  ghost function Run(codec: Codec, ops: seq<Op>, n: nat): Dirs
    requires n <= |ops|
  {
    if n == 0 then EMPTY_BOARD else Step(codec, Run(codec, ops, n - 1), ops[n - 1])
  }

  function Adds(ops: seq<Op>, n: nat): (k: nat)
    requires n <= |ops|
    ensures k <= n
  {
    if n == 0 then 0 else Adds(ops, n - 1) + if ops[n - 1].AddTask? then 1 else 0
  }

  lemma EmptyIsWellFormed()
    ensures WellFormed(EMPTY_BOARD) && Numbers(EMPTY_BOARD) == {}
  {}

  lemma MaxAfter(op: Op, before: set<int>, after: set<int>)
    requires NumbersAfter(op, before, after)
    ensures op.AddTask? ==> MaxOf(after) == MaxOf(before) + 1
    ensures op.MoveTask? ==> MaxOf(after) == MaxOf(before)
    ensures op.DeleteTask? ==> MaxOf(after) <= MaxOf(before)
  {
    if op.AddTask? { assert MaxOf(before) + 1 in after; }
  }

  /** Every reachable board is well formed, and its numbers are at most the number of additions. */
  lemma {:induction false} RunIsWellFormed(codec: Codec, ops: seq<Op>, n: nat)
    requires n <= |ops| && Adds(ops, n) <= MAX_INT
    ensures WellFormed(Run(codec, ops, n)) && MaxOf(Numbers(Run(codec, ops, n))) <= Adds(ops, n)
  {
    if n == 0 {
      EmptyIsWellFormed();
    } else {
      var before := Run(codec, ops, n - 1);
      RunIsWellFormed(codec, ops, n - 1);
      StepKeeps(codec, before, ops[n - 1]);
      MaxAfter(ops[n - 1], Numbers(before), Numbers(Step(codec, before, ops[n - 1])));
    }
  }

  /** Each id is in at most one column, whatever the run. */
  lemma IdsInOneColumn(codec: Codec, ops: seq<Op>, n: nat, id: string, c: Dir, d: Dir)
    requires n <= |ops| && Adds(ops, n) <= MAX_INT
    requires var dirs := Run(codec, ops, n); c in dirs && FileOf(id) in dirs[c] && d in dirs && FileOf(id) in dirs[d]
    ensures c == d
  {
    RunIsWellFormed(codec, ops, n);
    OnlyThere(Number, Run(codec, ops, n), c, FileOf(id), d);
  }

  /** One operation of a run, seen on the numbers. */
  lemma NumbersOfStep(codec: Codec, ops: seq<Op>, k: nat)
    requires k < |ops| && Adds(ops, k + 1) <= MAX_INT
    ensures NumbersAfter(ops[k], Numbers(Run(codec, ops, k)), Numbers(Run(codec, ops, k + 1)))
  {
    RunIsWellFormed(codec, ops, k);
    StepKeeps(codec, Run(codec, ops, k), ops[k]);
  }

  lemma NextIsAfterMax(codec: Codec, ops: seq<Op>, k: nat)
    requires k <= |ops| && Adds(ops, k) < MAX_INT
    ensures NextNumber(Run(codec, ops, k)) == MaxOf(Numbers(Run(codec, ops, k))) + 1
  {
    RunIsWellFormed(codec, ops, k);
  }

  lemma MaxGrows(codec: Codec, ops: seq<Op>, n: nat)
    requires 0 < n <= |ops| && Adds(ops, n) <= MAX_INT && !ops[n - 1].DeleteTask?
    ensures MaxOf(Numbers(Run(codec, ops, n)))
         == MaxOf(Numbers(Run(codec, ops, n - 1))) + if ops[n - 1].AddTask? then 1 else 0
  {
    NumbersOfStep(codec, ops, n - 1);
    MaxAfter(ops[n - 1], Numbers(Run(codec, ops, n - 1)), Numbers(Run(codec, ops, n)));
  }

  lemma {:induction false} MaxIsAdds(codec: Codec, ops: seq<Op>, n: nat)
    requires n <= |ops| && Adds(ops, n) <= MAX_INT
    requires forall k :: 0 <= k < n ==> !ops[k].DeleteTask?
    ensures MaxOf(Numbers(Run(codec, ops, n))) == Adds(ops, n)
  {
    if n == 0 {
      EmptyIsWellFormed();
    } else {
      MaxIsAdds(codec, ops, n - 1);
      MaxGrows(codec, ops, n);
    }
  }

  /** Without deletions the n-th addition gets the number n. */
  lemma AdditionsCountUp(codec: Codec, ops: seq<Op>, n: nat)
    requires n <= |ops| && Adds(ops, n) < MAX_INT
    requires forall k :: 0 <= k < n ==> !ops[k].DeleteTask?
    ensures NextNumber(Run(codec, ops, n)) == Adds(ops, n) + 1
  {
    MaxIsAdds(codec, ops, n);
    NextIsAfterMax(codec, ops, n);
  }

  // ----- what one operation does to one task -----

  lemma FindIsThere(dirs: Dirs, id: string, c: Dir)
    requires WellFormed(dirs) && c in dirs && FileOf(id) in dirs[c]
    ensures Find(dirs, id) == Some(c)
  {
    var i := ColumnIndex(c);
    assert Find(dirs, id).Some?;
    OnlyThere(Number, dirs, Find(dirs, id).value, FileOf(id), c);
  }

  lemma ColumnIndex(c: Dir) returns (i: nat)
    requires !c.OtherDir?
    ensures i < |COLUMNS| && COLUMNS[i] == c
  {
    i := match c case Backlog => 0 case InProgress => 1 case Review => 2 case Finished => 3;
  }

  /** What an operation on one file leaves alone: every other file, where it is and what it holds. */
  ghost predicate OthersKept(dirs: Dirs, after: Dirs, file: string) {
    forall c, f :: c in dirs && c in after && f != file ==>
      (f in after[c] <==> f in dirs[c]) && (f in dirs[c] ==> after[c][f] == dirs[c][f])
  }

  /** An added task is found in the backlog with its content; nothing else changes. */
  lemma AddedIsFound(codec: Codec, dirs: Dirs, slug: string, content: string)
    requires WellFormed(dirs) && MaxOf(Numbers(dirs)) < MAX_INT
    ensures var after, id := Step(codec, dirs, AddTask(slug, content)), NewId(NextNumber(dirs), slug);
            && Find(dirs, id) == None
            && Find(after, id) == Some(Backlog) && after[Backlog][FileOf(id)] == content
            && OthersKept(dirs, after, FileOf(id))
  {
    var n := NextNumber(dirs);
    var id := NewId(n, slug);
    NumberOfNewId(n, slug);
    NotYetThere(Number, dirs, FileOf(id), n);
    StepKeeps(codec, dirs, AddTask(slug, content));
    FileAdded(dirs, FileOf(id), content);
    FindIsThere(Step(codec, dirs, AddTask(slug, content)), id, Backlog);
  }

  /** Deleting a task just added, if it can be read, gives back the board as it was. */
  lemma AddThenDelete(codec: Codec, dirs: Dirs, slug: string, content: string)
    requires WellFormed(dirs) && MaxOf(Numbers(dirs)) < MAX_INT
    requires ParseTask(codec, NewId(NextNumber(dirs), slug), Backlog, content).Ok?
    ensures var added := Step(codec, dirs, AddTask(slug, content));
            Step(codec, added, DeleteTask(NewId(NextNumber(dirs), slug))) == dirs
  {
    AddedIsFound(codec, dirs, slug, content);
    FileRemoved(dirs, Backlog, FileOf(NewId(NextNumber(dirs), slug)), content);
  }

  lemma FileRemoved(dirs: Dirs, c: Dir, file: string, content: string)
    requires c in dirs && file !in dirs[c]
    ensures var after := dirs[c := dirs[c][file := content]]; after[c := after[c] - {file}] == dirs
  {
    assert dirs[c][file := content] - {file} == dirs[c];
  }

  lemma FileAdded(dirs: Dirs, file: string, content: string)
    requires Backlog in dirs
    ensures var after := dirs[Backlog := dirs[Backlog][file := content]];
            file in after[Backlog] && after[Backlog][file] == content && OthersKept(dirs, after, file)
  {}

  /**
   After adding a task it is read back from the backlog, under its id, exactly when its encoded
   header holds no dashes and its description is trimmed.
   */
  lemma AddThenGet(codec: Codec, dirs: Dirs, slug: string, task: Task)
    requires WellFormed(dirs) && MaxOf(Numbers(dirs)) < MAX_INT && Encodes(codec, task.header)
    requires task.id == NewId(NextNumber(dirs), slug) && task.status == Backlog
    ensures Located(codec, Step(codec, dirs, AddTask(slug, Serialize(codec, task))), task.id) == Ok((Backlog, task))
       <==> !Has(codec.encode(task.header), DASHES) && Trimmed(task.description)
  {
    AddedIsFound(codec, dirs, slug, Serialize(codec, task));
    TaskRoundTrip(codec, task);
  }

  lemma NotYetThere(num: Numbering, dirs: Dirs, file: string, n: int)
    requires num(file) == Some(n) && n > MaxOf(NumbersBy(num, dirs))
    ensures FindFrom(dirs, file, 0) == None
  {
    var r := FindFrom(dirs, file, 0);
    if r.Some? { InNumbers(num, dirs, r.value, file); }
  }

  /** A moved task is found in its new column with the content it had; nothing else changes. */
  lemma MovedIsFound(codec: Codec, dirs: Dirs, id: string, dest: Dir)
    requires WellFormed(dirs) && dest in dirs && Located(codec, dirs, id).Ok?
    ensures var after := Step(codec, dirs, MoveTask(id, dest));
            && Find(after, id) == Some(dest)
            && after[dest][FileOf(id)] == dirs[Located(codec, dirs, id).value.0][FileOf(id)]
            && OthersKept(dirs, after, FileOf(id))
  {
    var from := Located(codec, dirs, id).value.0;
    StepKeeps(codec, dirs, MoveTask(id, dest));
    MovedOthers(dirs, from, dest, FileOf(id));
    FindIsThere(Moved(dirs, from, dest, FileOf(id)), id, dest);
  }

  lemma MovedOthers(dirs: Dirs, from: Dir, dest: Dir, file: string)
    requires from in dirs && dest in dirs && file in dirs[from]
    ensures var after := Moved(dirs, from, dest, file);
            && after.Keys == dirs.Keys
            && file in after[dest] && after[dest][file] == dirs[from][file]
            && OthersKept(dirs, after, file)
  {}

  /** A deleted task is found no more; nothing else changes. */
  lemma DeletedIsGone(codec: Codec, dirs: Dirs, id: string)
    requires WellFormed(dirs) && Located(codec, dirs, id).Ok?
    ensures var after := Step(codec, dirs, DeleteTask(id));
            Find(after, id) == None && OthersKept(dirs, after, FileOf(id))
  {
    var c, file := Located(codec, dirs, id).value.0, FileOf(id);
    var after := Step(codec, dirs, DeleteTask(id));
    var r := Find(after, id);
    if r.Some? { OnlyThere(Number, dirs, c, file, r.value); }
  }

  // ----- numbers and deletion -----

  /** The numbers given out by the additions of a run. */
  ghost function Given(codec: Codec, ops: seq<Op>, n: nat): set<int>
    requires n <= |ops|
  {
    if n == 0 then {}
    else Given(codec, ops, n - 1) + if ops[n - 1].AddTask? then {NextNumber(Run(codec, ops, n - 1))} else {}
  }

  /** The numbers given out are 1 up to `highest`, and the board's are among them. */
  ghost predicate Initial(given: set<int>, now: set<int>, highest: nat) {
    && (forall x :: x in given <==> 1 <= x <= highest)
    && (forall x :: x in now ==> 1 <= x <= highest)
  }

  lemma InitialGrows(op: Op, given: set<int>, before: set<int>, after: set<int>, highest: nat) returns (h: nat)
    requires Initial(given, before, highest) && NumbersAfter(op, before, after)
    ensures Initial(given + if op.AddTask? then {MaxOf(before) + 1} else {}, after, h)
  {
    h := if op.AddTask? && MaxOf(before) + 1 > highest then MaxOf(before) + 1 else highest;
  }

  lemma {:induction false} GivenIsInitial(codec: Codec, ops: seq<Op>, n: nat) returns (highest: nat)
    requires n <= |ops| && Adds(ops, n) <= MAX_INT
    ensures Initial(Given(codec, ops, n), Numbers(Run(codec, ops, n)), highest)
  {
    if n == 0 {
      EmptyIsWellFormed();
      highest := 0;
    } else {
      var h := GivenIsInitial(codec, ops, n - 1);
      NumbersOfStep(codec, ops, n - 1);
      highest := InitialGrows(ops[n - 1], Given(codec, ops, n - 1),
                              Numbers(Run(codec, ops, n - 1)), Numbers(Run(codec, ops, n)), h);
      GivenGrows(codec, ops, n);
    }
  }

  lemma GivenGrows(codec: Codec, ops: seq<Op>, n: nat)
    requires 0 < n <= |ops| && Adds(ops, n) <= MAX_INT
    ensures Given(codec, ops, n)
         == Given(codec, ops, n - 1)
            + if ops[n - 1].AddTask? then {MaxOf(Numbers(Run(codec, ops, n - 1))) + 1} else {}
  {
    if ops[n - 1].AddTask? { NextIsAfterMax(codec, ops, n - 1); }
  }

  /**
   A new task's number was never given before exactly when the highest number ever given is still on
   the board (or none was given yet): deleting that task makes its number come back.
   */
  lemma NumberIsNewExactly(codec: Codec, ops: seq<Op>, n: nat)
    requires n <= |ops| && Adds(ops, n) < MAX_INT
    ensures NextNumber(Run(codec, ops, n)) !in Given(codec, ops, n)
       <==> MaxOf(Given(codec, ops, n)) == 0 || MaxOf(Given(codec, ops, n)) in Numbers(Run(codec, ops, n))
  {
    var h := GivenIsInitial(codec, ops, n);
    NextIsAfterMax(codec, ops, n);
    NewExactly(Given(codec, ops, n), Numbers(Run(codec, ops, n)), h);
  }

  /** Deleting the only task brings its number back: add, delete, and the next addition is number 1 again. */
  lemma NumberComesBack(codec: Codec, slug: string, content: string, another: Op)
    requires ParseTask(codec, NewId(1, slug), Backlog, content).Ok? && another.AddTask?
    ensures var ops := [AddTask(slug, content), DeleteTask(NewId(1, slug)), another];
            1 in Given(codec, ops, 2) && NextNumber(Run(codec, ops, 2)) == 1
  {
    var ops := [AddTask(slug, content), DeleteTask(NewId(1, slug)), another];
    EmptyIsWellFormed();
    assert Run(codec, ops, 0) == EMPTY_BOARD && NextNumber(EMPTY_BOARD) == 1;
    AddThenDelete(codec, EMPTY_BOARD, slug, content);
    assert Run(codec, ops, 1) == Step(codec, EMPTY_BOARD, ops[0]);
    assert Run(codec, ops, 2) == EMPTY_BOARD;
    assert Given(codec, ops, 1) == Given(codec, ops, 0) + {1};
    assert Given(codec, ops, 2) == Given(codec, ops, 1) + {};
  }

  lemma NewExactly(given: set<int>, now: set<int>, h: nat)
    requires Initial(given, now, h)
    ensures MaxOf(now) + 1 !in given <==> MaxOf(given) == 0 || MaxOf(given) in now
  {
    if h > 0 { assert h in given; }
    assert MaxOf(given) == h;
  }

  // ----- contents -----

  ghost function Items(dirs: Dirs, c: Dir): multiset<(string, string)>
    requires c in dirs
  {
    multiset(dirs[c].Items)
  }

  /** The (file, content) pairs of all columns, with their multiplicity. */
  ghost function Contents(dirs: Dirs): multiset<(string, string)>
    requires FourColumns(dirs)
  {
    Items(dirs, Backlog) + Items(dirs, InProgress) + Items(dirs, Review) + Items(dirs, Finished)
  }

  function Occurs(files: Column, f: string, x: string): nat {
    if f in files && files[f] == x then 1 else 0
  }

  lemma ItemsCount(dirs: Dirs, c: Dir, f: string, x: string)
    requires c in dirs
    ensures Items(dirs, c)[(f, x)] == Occurs(dirs[c], f, x)
  {
    var items := dirs[c].Items;
    assert (f, x) in items <==> f in dirs[c] && dirs[c][f] == x;
  }

  lemma ContentsCount(dirs: Dirs, f: string, x: string)
    requires FourColumns(dirs)
    ensures Contents(dirs)[(f, x)]
         == Occurs(dirs[Backlog], f, x) + Occurs(dirs[InProgress], f, x)
            + Occurs(dirs[Review], f, x) + Occurs(dirs[Finished], f, x)
  {
    ItemsCount(dirs, Backlog, f, x);
    ItemsCount(dirs, InProgress, f, x);
    ItemsCount(dirs, Review, f, x);
    ItemsCount(dirs, Finished, f, x);
  }

  /** Taking a file from the only column that holds it to another one keeps every pair's count. */
  lemma MovedContents(dirs: Dirs, from: Dir, dest: Dir, file: string)
    requires FourColumns(dirs) && from in dirs && dest in dirs && file in dirs[from]
    requires forall c :: c in dirs && file in dirs[c] ==> c == from
    ensures FourColumns(Moved(dirs, from, dest, file)) && Contents(Moved(dirs, from, dest, file)) == Contents(dirs)
  {
    var after := Moved(dirs, from, dest, file);
    assert FourColumns(after);
    var a, b := Contents(after), Contents(dirs);
    forall p ensures a[p] == b[p] {
      var (f, x) := p;
      forall c | c in dirs ensures MovedOne(dirs, after, c, f, x, f == file, from, dest, dirs[from][file] == x) {
        MovedOccurs(dirs, from, dest, file, c, f, x);
      }
      MovedCount(dirs, after, f, x, f == file, from, dest, dirs[from][file] == x);
      assert p == (f, x);
    }
  }

  /** One in the given column, if at all. */
  function OneIn(c: Dir, place: Dir, hit: bool): nat {
    if hit && c == place then 1 else 0
  }

  lemma OneInFour(place: Dir, hit: bool)
    requires !place.OtherDir?
    ensures OneIn(Backlog, place, hit) + OneIn(InProgress, place, hit)
            + OneIn(Review, place, hit) + OneIn(Finished, place, hit)
         == if hit then 1 else 0
  {}

  /** How one column's count of a pair changes: it does not, or the pair's only copy leaves `from` for `dest`. */
  predicate MovedOne(dirs: Dirs, after: Dirs, c: Dir, f: string, x: string, moving: bool,
                     from: Dir, dest: Dir, hit: bool)
    requires c in dirs && c in after
  {
    if moving then Occurs(after[c], f, x) == OneIn(c, dest, hit) && Occurs(dirs[c], f, x) == OneIn(c, from, hit)
    else Occurs(after[c], f, x) == Occurs(dirs[c], f, x)
  }

  lemma MovedOccurs(dirs: Dirs, from: Dir, dest: Dir, file: string, c: Dir, f: string, x: string)
    requires from in dirs && dest in dirs && file in dirs[from] && c in dirs && (file in dirs[c] ==> c == from)
    ensures MovedOne(dirs, Moved(dirs, from, dest, file), c, f, x, f == file, from, dest, dirs[from][file] == x)
  {}

  lemma MovedCount(dirs: Dirs, after: Dirs, f: string, x: string, moving: bool, from: Dir, dest: Dir, hit: bool)
    requires FourColumns(dirs) && FourColumns(after) && !from.OtherDir? && !dest.OtherDir?
    requires forall c :: c in dirs ==> MovedOne(dirs, after, c, f, x, moving, from, dest, hit)
    ensures Contents(after)[(f, x)] == Contents(dirs)[(f, x)]
  {
    OneInFour(from, hit);
    OneInFour(dest, hit);
    assert MovedOne(dirs, after, Backlog, f, x, moving, from, dest, hit);
    assert MovedOne(dirs, after, InProgress, f, x, moving, from, dest, hit);
    assert MovedOne(dirs, after, Review, f, x, moving, from, dest, hit);
    assert MovedOne(dirs, after, Finished, f, x, moving, from, dest, hit);
    ContentsCount(after, f, x);
    ContentsCount(dirs, f, x);
  }

  /** Moving a task, wherever it goes, changes no id and no content. */
  lemma MoveKeepsContents(codec: Codec, dirs: Dirs, id: string, dest: Dir)
    requires WellFormed(dirs)
    ensures FourColumns(Step(codec, dirs, MoveTask(id, dest)))
    ensures Contents(Step(codec, dirs, MoveTask(id, dest))) == Contents(dirs)
  {
    var l := Located(codec, dirs, id);
    if l.Ok? && dest in dirs {
      var from, file := l.value.0, FileOf(id);
      forall c | c in dirs && file in dirs[c] ensures c == from {
        OnlyThere(Number, dirs, from, file, c);
      }
      MovedContents(dirs, from, dest, file);
    }
  }
}
