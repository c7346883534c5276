/** Skill documents: the text `Install` writes and the parser that reads it back. */
module Skills {
  import opened Wrappers
  import opened Text

  datatype SkillConfig = SkillConfig(name: string, description: string, content: string)

  datatype SkillError = MissingFrontmatter

  function Print(cfg: SkillConfig): string {
    "---\nname: " + cfg.name + "\ndescription: " + cfg.description + "\n---\n\n" + cfg.content
  }

  // ----- the parser's meaning -----

  /** One header line: "key: value", with the two keys the parser knows. */
  function ReadLine(raw: string, skill: SkillConfig): SkillConfig {
    match Cut(TrimSpace(raw), ": ")
    case None => skill
    case Some((k, v)) =>
      if k == "name" then skill.(name := v)
      else if k == "description" then skill.(description := v)
      else skill
  }

  function ReadLines(lines: seq<string>, skill: SkillConfig): SkillConfig {
    if lines == [] then skill else ReadLines(lines[1..], ReadLine(lines[0], skill))
  }

  function Parse(name: string, text: string): Result<SkillConfig, SkillError> {
    var parts := SplitN(text, DASHES, 3);
    if |parts| < 3 then Err(MissingFrontmatter)
    else Ok(ReadLines(Split(parts[1], "\n"), SkillConfig(name, "", "")).(content := TrimSpace(parts[2])))
  }

  method ParseSkillMD(name: string, text: string) returns (r: Result<SkillConfig, SkillError>)
    ensures r == Parse(name, text)
  {
    var parts := SplitN(text, DASHES, 3);
    if |parts| < 3 { return Err(MissingFrontmatter); }
    var skill := SkillConfig(name, "", "");
    var lines := Split(parts[1], "\n");
    for i := 0 to |lines|
      invariant ReadLines(lines[i..], skill) == ReadLines(lines, SkillConfig(name, "", ""))
    {
      assert lines[i..][0] == lines[i] && lines[i..][1..] == lines[i + 1..];
      var cut := Cut(TrimSpace(lines[i]), ": ");
      if cut.Some? {
        if cut.value.0 == "name" {
          skill := skill.(name := cut.value.1);
        } else if cut.value.0 == "description" {
          skill := skill.(description := cut.value.1);
        }
      }
    }
    r := Ok(skill.(content := TrimSpace(parts[2])));
  }

  /** A text is a skill document exactly if it has the dashes twice. */
  lemma ParseFailsExactly(name: string, text: string)
    ensures Parse(name, text) == Err(MissingFrontmatter) <==> !TwoDashes(text)
    ensures Parse(name, text).Ok? <==> TwoDashes(text)
  {
    SplitAtDashes(text);
  }

  // ----- which skills survive printing -----

  predicate OneLine(s: string) {
    '\n' !in s
  }

  predicate NoTrailingSpace(s: string) {
    s != "" ==> !IsSpace(s[|s| - 1])
  }

  /** A blank name reads as no name at all, and then the directory's own name is taken. */
  ghost predicate PrintableName(s: string) {
    OneLine(s) && !Has(s, DASHES) && (Blank(s) || NoTrailingSpace(s))
  }

  ghost predicate PrintableDescription(s: string) {
    OneLine(s) && !Has(s, DASHES) && NoTrailingSpace(s)
  }

  ghost predicate Printable(cfg: SkillConfig) {
    PrintableName(cfg.name) && PrintableDescription(cfg.description) && Trimmed(cfg.content)
  }

  // ----- reading one header line -----

  lemma BlankConcat(a: string, b: string)
    requires Blank(a) && Blank(b)
    ensures Blank(a + b)
  {}

  /** The key of a header line is found before its first ": ". */
  lemma CutKey(key: string, v: string)
    requires key == "name" || key == "description"
    ensures Cut(key + ": " + v, ": ") == Some((key, v))
  {
    var s := key + ": " + v;
    assert s[|key|..|key| + 2] == ": ";
    forall k | 0 <= k < |key| ensures !At(s, ": ", k) {
      assert key[k] != ':';
      NotAt(s, ": ", k, 0);
    }
    FirstAt(s, ": ", |key|);
    assert s[..|key|] == key && s[|key| + 2..] == v;
  }

  lemma NoCut(key: string)
    requires key == "name" || key == "description"
    ensures Cut(key + ":", ": ") == None
  {
    forall k ensures !At(key + ":", ": ", k) {
      NotAt(key + ":", ": ", k, 1);
    }
  }

  lemma {:induction false} TrimRightOfBlank(s: string)
    requires Blank(s)
    ensures TrimRight(s) == ""
  {
    TrimRightPad("", s);
    assert "" + s == s;
  }

  lemma TrimRightAfterSpace(v: string)
    ensures TrimRight(" " + v) == if Blank(v) then "" else " " + TrimRight(v)
    ensures Blank(v) <==> TrimRight(v) == ""
  {
    if Blank(v) {
      BlankConcat(" ", v);
      TrimRightOfBlank(" " + v);
      TrimRightOfBlank(v);
    } else {
      var b := TrimRightSplit(v);
      var t := TrimRight(v);
      assert "" + b == b;
      Assoc(" ", t, b);
      assert t != "" ==> (" " + t)[|" " + t| - 1] == t[|t| - 1];
      if t != "" { TrimRightPad(" " + t, b); }
    }
  }

  /** Trimming a header line keeps key and value apart unless the value is blank. */
  lemma TrimHeader(key: string, v: string)
    requires key == "name" || key == "description"
    ensures TrimSpace(key + ": " + v) == if Blank(v) then key + ":" else key + ": " + TrimRight(v)
  {
    var core := key + ":";
    assert core[0] == key[0] && core[|core| - 1] == ':';
    assert core + " " == key + ": ";
    Assoc(core, " ", v);
    Assoc(core, " ", TrimRight(v));
    TrimAfterCore(core, " " + v);
    TrimRightAfterSpace(v);
    assert core + "" == core;
  }

  /** What a printed header line does to the skill being read. */
  lemma ReadHeader(key: string, v: string, skill: SkillConfig)
    requires key == "name" || key == "description"
    ensures ReadLine(key + ": " + v, skill)
         == if Blank(v) then skill
            else if key == "name" then skill.(name := TrimRight(v)) else skill.(description := TrimRight(v))
  {
    TrimHeader(key, v);
    TrimRightAfterSpace(v);
    if Blank(v) { NoCut(key); } else { CutKey(key, TrimRight(v)); }
  }

  lemma ReadEmptyLine(skill: SkillConfig)
    ensures ReadLine("", skill) == skill
  {
    assert TrimSpace("") == "";
    forall k ensures !At("", ": ", k) { NotAt("", ": ", k, 0); }
  }

  // ----- reading a whole printed document -----

  function HeaderText(name: string, description: string): string {
    "\n" + ("name: " + name + "\n" + ("description: " + description + "\n"))
  }

  lemma TrimRightKeeps(s: string)
    requires NoTrailingSpace(s)
    ensures TrimRight(s) == s
  {
    TrimRightPad(s, "");
    assert s + "" == s;
  }

  lemma {:induction false} ReadAppend(a: seq<string>, b: seq<string>, skill: SkillConfig)
    ensures ReadLines(a + b, skill) == ReadLines(b, ReadLines(a, skill))
    decreases |a|
  {
    if a == [] {
      assert a + b == b;
    } else {
      ReadAppend(a[1..], b, ReadLine(a[0], skill));
      assert (a + b)[1..] == a[1..] + b;
    }
  }

  lemma ReadOne(line: string, skill: SkillConfig)
    ensures ReadLines([line], skill) == ReadLine(line, skill)
  {
    assert [line][1..] == [];
  }

  /** The lines of a printed header: those of the name, after its key, and that of the description. */
  lemma HeaderLines(name: string, description: string)
    requires OneLine(description)
    ensures var lines := Split(name, "\n");
            Split(HeaderText(name, description), "\n")
            == [""] + (["name: " + lines[0]] + lines[1..] + ["description: " + description] + [""])
  {
    var l1, l2 := "name: " + name, "description: " + description;
    SplitChar(l2, '\n', "");
    SplitCharNone("", '\n');
    assert l2 + "\n" + "" == l2 + "\n";
    SplitPrefixed("name: ", '\n', name);
    SplitJoined(l1, '\n', l2 + "\n");
    AppendAssoc(Split(l1, "\n"), [l2], [""]);
    SplitChar("", '\n', l1 + "\n" + (l2 + "\n"));
    assert "" + "\n" + (l1 + "\n" + (l2 + "\n")) == "\n" + (l1 + "\n" + (l2 + "\n"));
  }

  /** What is read from the lines of a name, after its key, under a directory name. */
  function ReadName(dir: string, lines: seq<string>): SkillConfig
    requires lines != []
  {
    ReadLines(lines[1..], SkillConfig(if Blank(lines[0]) then dir else TrimRight(lines[0]), "", ""))
  }

  /** The header of a printed document with a one-line description, read under a directory name. */
  lemma ReadHeaderText(dir: string, name: string, description: string)
    requires OneLine(description)
    ensures var skill := ReadName(dir, Split(name, "\n"));
            ReadLines(Split(HeaderText(name, description), "\n"), SkillConfig(dir, "", ""))
            == if Blank(description) then skill else skill.(description := TrimRight(description))
  {
    var lines := Split(name, "\n");
    var l1, l2 := "name: " + lines[0], "description: " + description;
    var skill := SkillConfig(dir, "", "");
    var skill1 := ReadLine(l1, skill);
    var skill2 := ReadLines(lines[1..], skill1);
    var skill3 := ReadLine(l2, skill2);
    HeaderLines(name, description);
    assert "name" + ": " == "name: " && "description" + ": " == "description: ";
    ReadHeader("name", lines[0], skill);
    ReadHeader("description", description, skill2);
    ReadEmptyLine(skill);
    ReadEmptyLine(skill3);
    ReadOne("", skill);
    ReadAppend([""], [l1] + lines[1..] + [l2] + [""], skill);
    ReadOne("", skill3);
    ReadAppend([l1] + lines[1..] + [l2], [""], skill);
    ReadOne(l2, skill2);
    ReadAppend([l1] + lines[1..], [l2], skill);
    ReadOne(l1, skill);
    ReadAppend([l1], lines[1..], skill);
  }

  lemma NoDashesHeader(name: string, description: string)
    requires !Has(name, DASHES) && !Has(description, DASHES)
    ensures !Has(HeaderText(name, description), DASHES)
  {
    var l1, l2 := "name: " + name, "description: " + description;
    assert l1 == "name:" + " " + name && l2 == "description:" + " " + description;
    HasFirstChar("name:", DASHES);
    HasFirstChar("description:", DASHES);
    HasFirstChar("", DASHES);
    HasSeparated("name:", ' ', name, DASHES);
    HasSeparated("description:", ' ', description, DASHES);
    HasSeparated(l2, '\n', "", DASHES);
    assert l2 + "\n" + "" == l2 + "\n";
    HasSeparated(l1, '\n', l2 + "\n", DASHES);
    HasSeparated("", '\n', l1 + "\n" + (l2 + "\n"), DASHES);
    assert "" + "\n" + (l1 + "\n" + (l2 + "\n")) == "\n" + (l1 + "\n" + (l2 + "\n"));
  }

  lemma PrintShape(cfg: SkillConfig)
    ensures Print(cfg) == DASHES + (HeaderText(cfg.name, cfg.description) + DASHES + ("\n\n" + cfg.content))
  {
    var n, d, c := cfg.name, cfg.description, cfg.content;
    calc {
      Print(cfg);
      {
        assert "---\nname: " == DASHES + "\n" + "name: " && "\ndescription: " == "\n" + "description: ";
        assert "\n---\n\n" == "\n" + DASHES + "\n\n";
      }
      (DASHES + "\n" + "name: ") + n + ("\n" + "description: ") + d + ("\n" + DASHES + "\n\n") + c;
      DASHES + (HeaderText(n, d) + DASHES + ("\n\n" + c));
    }
  }

  lemma ContentTrims(content: string)
    ensures TrimSpace("\n\n" + content) == content <==> Trimmed(content)
  {
    var a, b := TrimSplit("\n\n" + content);
    if Trimmed(content) {
      TrimPad("\n\n", content, "");
      assert "\n\n" + content + "" == "\n\n" + content;
    }
  }

  /**
   A printable skill comes back from its own document, whatever its content holds. The directory
   name matters only for a blank skill name.
   */
  lemma PrintableReadsBack(dir: string, cfg: SkillConfig)
    requires Printable(cfg) && (Blank(cfg.name) ==> dir == cfg.name)
    ensures Parse(dir, Print(cfg)) == Ok(cfg)
  {
    var header := HeaderText(cfg.name, cfg.description);
    PrintShape(cfg);
    NoDashesHeader(cfg.name, cfg.description);
    SplitDocument(header, "\n\n" + cfg.content);
    ReadHeaderText(dir, cfg.name, cfg.description);
    ContentTrims(cfg.content);
    SplitCharNone(cfg.name, '\n');
    if NoTrailingSpace(cfg.name) { TrimRightKeeps(cfg.name); }
    TrimRightKeeps(cfg.description);
  }

  // ----- every parsed skill is printable -----

  lemma SuffixOfLine(raw: string, v: string, pre: string, post: string)
    requires raw == pre + v + post
    ensures OneLine(raw) ==> OneLine(v)
    ensures !Has(raw, DASHES) ==> !Has(v, DASHES)
  {
    if Has(v, DASHES) { HasInside(pre, v, post, DASHES); }
    assert forall i :: 0 <= i < |v| ==> v[i] == raw[|pre| + i];
  }

  /** A value read from a clean line is clean, and never blank. */
  lemma ReadLineClean(raw: string, skill: SkillConfig)
    requires OneLine(raw) && !Has(raw, DASHES)
    ensures var r := ReadLine(raw, skill);
            && r.content == skill.content
            && (r.name == skill.name || (PrintableDescription(r.name) && !Blank(r.name)))
            && (r.description == skill.description || PrintableDescription(r.description))
  {
    var a, b := TrimSplit(raw);
    var t := TrimSpace(raw);
    var cut := Cut(t, ": ");
    if cut.Some? {
      var (k, v) := cut.value;
      var i := Index(t, ": ");
      assert t == t[..i + 2] + v;
      assert raw == (a + t[..i + 2]) + v + b by {
        Assoc(a, t[..i + 2], v);
      }
      SuffixOfLine(raw, v, a + t[..i + 2], b);
      if v == "" {
        AtChar(t, ": ", i, 1);
      } else {
        assert v[|v| - 1] == t[|t| - 1];
      }
    }
  }

  lemma {:induction false} ReadLinesClean(lines: seq<string>, skill: SkillConfig)
    requires forall i :: 0 <= i < |lines| ==> OneLine(lines[i]) && !Has(lines[i], DASHES)
    ensures var r := ReadLines(lines, skill);
            && (r.name == skill.name || (PrintableDescription(r.name) && !Blank(r.name)))
            && (r.description == skill.description || PrintableDescription(r.description))
  {
    if lines != [] {
      ReadLineClean(lines[0], skill);
      ReadLinesClean(lines[1..], ReadLine(lines[0], skill));
    }
  }

  lemma LinesAreClean(header: string)
    ensures forall i :: 0 <= i < |Split(header, "\n")| ==> OneLine(Split(header, "\n")[i])
    ensures !Has(header, DASHES) ==> forall i :: 0 <= i < |Split(header, "\n")| ==> !Has(Split(header, "\n")[i], DASHES)
  {
    var lines := Split(header, "\n");
    forall i | 0 <= i < |lines| ensures OneLine(lines[i]) { CharAbsent(lines[i], '\n'); }
    if !Has(header, DASHES) { PiecesHaveNone(header, '\n', DASHES); }
  }

  /** What the parser yields: the directory's name or a clean one, a clean description, trimmed content. */
  lemma ParsedIsPrintable(dir: string, text: string)
    ensures var r := Parse(dir, text);
            r.Ok? ==> && (r.value.name == dir || (PrintableDescription(r.value.name) && !Blank(r.value.name)))
                      && PrintableDescription(r.value.description)
                      && Trimmed(r.value.content)
  {
    var parts := SplitN(text, DASHES, 3);
    if |parts| == 3 {
      var i := Index(text, DASHES);
      var rest := text[i + 3..];
      var j := Index(rest, DASHES);
      SecondPiece(text);
      LinesAreClean(parts[1]);
      ReadLinesClean(Split(parts[1], "\n"), SkillConfig(dir, "", ""));
      HasFirstChar("", DASHES);
      var a, b := TrimSplit(parts[2]);
    }
  }

  lemma SecondPiece(text: string)
    requires |SplitN(text, DASHES, 3)| == 3
    ensures !Has(SplitN(text, DASHES, 3)[1], DASHES)
  {
    var rest := text[Index(text, DASHES) + 3..];
    assert SplitN(text, DASHES, 3)[1..] == SplitN(rest, DASHES, 2);
    NoEarlier(rest, DASHES, Index(rest, DASHES));
  }

  /** Printing a parsed skill and parsing it again gives the same skill. */
  lemma NormalForm(dir: string, text: string)
    requires PrintableName(dir) && Parse(dir, text).Ok?
    ensures var skill := Parse(dir, text).value;
            Parse(dir, Print(skill)) == Ok(skill) && (!Blank(dir) ==> Parse(skill.name, Print(skill)) == Ok(skill))
  {
    var skill := Parse(dir, text).value;
    ParsedIsPrintable(dir, text);
    PrintableReadsBack(dir, skill);
    PrintableReadsBack(skill.name, skill);
  }

  // ----- and no other skill survives -----

  lemma {:induction false} HeaderHasDashes(name: string, description: string)
    requires Has(name, DASHES) || Has(description, DASHES)
    ensures Has(HeaderText(name, description), DASHES)
  {
    var d := "description: " + description + "\n";
    if Has(name, DASHES) {
      HasInside("\n" + "name: ", name, "\n" + d, DASHES);
      assert ("\n" + "name: ") + name + ("\n" + d) == HeaderText(name, description);
    } else {
      HasInside("\n" + ("name: " + name + "\n" + "description: "), description, "\n", DASHES);
      assert "\n" + ("name: " + name + "\n" + "description: ") + description + "\n" == HeaderText(name, description);
    }
  }

  /** A line that the parser takes for a value of this key. */
  predicate Sets(raw: string, key: string) {
    HasPrefix(TrimSpace(raw), key + ": ")
  }

  predicate SetIn(lines: seq<string>, key: string) {
    exists line :: line in lines && Sets(line, key)
  }

  lemma SetsIsCut(t: string, key: string)
    requires key == "name" || key == "description"
    ensures HasPrefix(t, key + ": ") <==> Cut(t, ": ").Some? && Cut(t, ": ").value.0 == key
  {
    var i := Index(t, ": ");
    if i != -1 { assert t[..i + 2] == t[..i] + ": "; }
    if HasPrefix(t, key + ": ") {
      assert t == key + ": " + t[|key| + 2..];
      CutKey(key, t[|key| + 2..]);
    }
  }

  /** The value of a trimmed one-line text after its first ": " is one line and not empty. */
  lemma CutValue(raw: string)
    requires OneLine(raw) && Cut(TrimSpace(raw), ": ").Some?
    ensures var v := Cut(TrimSpace(raw), ": ").value.1; OneLine(v) && v != ""
  {
    var a, b := TrimSplit(raw);
    var t := TrimSpace(raw);
    var i := Index(t, ": ");
    SuffixOfLine(raw, t, a, b);
    assert t == t[..i + 2] + t[i + 2..] + "";
    SuffixOfLine(t, t[i + 2..], t[..i + 2], "");
    if i + 2 == |t| { AtChar(t, ": ", i, 1); }
  }

  /** A line sets at most one of the two fields, and exactly when it begins with its key. */
  lemma ReadLineSets(raw: string, skill: SkillConfig)
    requires OneLine(raw)
    ensures var r := ReadLine(raw, skill);
            && (if Sets(raw, "name") then OneLine(r.name) else r.name == skill.name)
            && (if Sets(raw, "description") then r.description != "" else r.description == skill.description)
  {
    SetsIsCut(TrimSpace(raw), "name");
    SetsIsCut(TrimSpace(raw), "description");
    if Cut(TrimSpace(raw), ": ").Some? { CutValue(raw); }
  }

  lemma SetInFirst(lines: seq<string>, key: string)
    requires lines != []
    ensures SetIn(lines, key) <==> Sets(lines[0], key) || SetIn(lines[1..], key)
  {
    assert lines == [lines[0]] + lines[1..];
  }

  lemma {:induction false} ReadLinesSet(lines: seq<string>, skill: SkillConfig)
    requires forall i :: 0 <= i < |lines| ==> OneLine(lines[i])
    ensures var r := ReadLines(lines, skill);
            && (if SetIn(lines, "name") then OneLine(r.name) else r.name == skill.name)
            && (if SetIn(lines, "description") then r.description != "" else r.description == skill.description)
            && (OneLine(skill.name) ==> OneLine(r.name))
            && (skill.description != "" ==> r.description != "")
    decreases |lines|
  {
    if lines != [] {
      ReadLineSets(lines[0], skill);
      ReadLinesSet(lines[1..], ReadLine(lines[0], skill));
      SetInFirst(lines, "name");
      SetInFirst(lines, "description");
    }
  }

  /** What a line that sets a field sets it to: all after the key, without the white space at its ends. */
  lemma ReadLineValue(raw: string, skill: SkillConfig)
    ensures Sets(raw, "name") ==> ReadLine(raw, skill) == skill.(name := TrimSpace(raw)[6..])
    ensures Sets(raw, "description") ==> ReadLine(raw, skill) == skill.(description := TrimSpace(raw)[13..])
  {
    var t := TrimSpace(raw);
    if Sets(raw, "name") {
      assert t == "name" + ": " + t[6..];
      CutKey("name", t[6..]);
    }
    if Sets(raw, "description") {
      assert t == "description" + ": " + t[13..];
      CutKey("description", t[13..]);
    }
  }

  /** Of several lines that set a field the last one counts. */
  lemma {:induction false} LastLineCounts(lines: seq<string>, skill: SkillConfig, k: nat)
    requires k < |lines| && forall i :: 0 <= i < |lines| ==> OneLine(lines[i])
    ensures Sets(lines[k], "name") && !SetIn(lines[k + 1..], "name") ==>
              ReadLines(lines, skill).name == TrimSpace(lines[k])[6..]
    ensures Sets(lines[k], "description") && !SetIn(lines[k + 1..], "description") ==>
              ReadLines(lines, skill).description == TrimSpace(lines[k])[13..]
    decreases |lines|
  {
    if k == 0 {
      ReadLineValue(lines[0], skill);
      ReadLinesSet(lines[1..], ReadLine(lines[0], skill));
    } else {
      assert lines[1..][k - 1] == lines[k] && lines[1..][k..] == lines[k + 1..];
      LastLineCounts(lines[1..], ReadLine(lines[0], skill), k - 1);
    }
  }

  /**
   The names that survive printing, given the description. A name of one line is blank or has no
   trailing white space. A name of several lines is read as blank, so that the directory's name
   stands, if its first line is blank and no other line looks like a name; and none may look like
   a description if the description is blank.
   */
  ghost predicate NameSurvives(name: string, description: string) {
    var lines := Split(name, "\n");
    && !Has(name, DASHES)
    && (Blank(lines[0]) || (|lines| == 1 && NoTrailingSpace(name)))
    && !SetIn(lines[1..], "name")
    && (Blank(description) ==> !SetIn(lines[1..], "description"))
  }

  lemma LinesOfMany(name: string)
    ensures OneLine(name) <==> |Split(name, "\n")| == 1
    ensures OneLine(name) ==> Split(name, "\n") == [name]
  {
    if OneLine(name) {
      SplitCharNone(name, '\n');
    } else {
      var k :| 0 <= k < |name| && name[k] == '\n';
      assert name[k..k + 1] == "\n";
      assert At(name, "\n", k);
    }
  }

  lemma TrimRightOneLine(s: string)
    requires OneLine(s)
    ensures OneLine(TrimRight(s))
  {
    var b := TrimRightSplit(s);
    assert forall i :: 0 <= i < |TrimRight(s)| ==> TrimRight(s)[i] == s[i];
  }

  /** Exactly the surviving names are read back from their lines, without a description. */
  lemma ReadNameExactly(name: string, description: string)
    requires !Has(name, DASHES)
    ensures var skill := ReadName(name, Split(name, "\n"));
            NameSurvives(name, description) <==> skill.name == name && (Blank(description) ==> skill.description == "")
  {
    var lines := Split(name, "\n");
    var first, rest := lines[0], lines[1..];
    var skill := SkillConfig(if Blank(first) then name else TrimRight(first), "", "");
    LinesAreClean(name);
    LinesOfMany(name);
    TrimRightOneLine(first);
    ReadLinesSet(rest, skill);
    if NoTrailingSpace(first) { TrimRightKeeps(first); }
  }

  /** The skills whose document says all there is to say. */
  ghost predicate Survives(cfg: SkillConfig) {
    NameSurvives(cfg.name, cfg.description) && PrintableDescription(cfg.description) && Trimmed(cfg.content)
  }

  /**
   A skill comes back from its installed document exactly when its name survives, its description
   is one line free of dashes with no trailing white space, and its content is trimmed.
   */
  lemma RoundTripExactly(cfg: SkillConfig)
    ensures Parse(cfg.name, Print(cfg)) == Ok(cfg) <==> Survives(cfg)
  {
    var header := HeaderText(cfg.name, cfg.description);
    PrintShape(cfg);
    if Parse(cfg.name, Print(cfg)) == Ok(cfg) {
      ParsedIsPrintable(cfg.name, Print(cfg));
      if Has(cfg.name, DASHES) {
        HeaderHasDashes(cfg.name, cfg.description);
        DashesInHeader(header, "\n\n", cfg.content);
      }
    }
    if !Has(cfg.name, DASHES) && PrintableDescription(cfg.description) {
      NoDashesHeader(cfg.name, cfg.description);
      SplitDocument(header, "\n\n" + cfg.content);
      ReadHeaderText(cfg.name, cfg.name, cfg.description);
      ReadNameExactly(cfg.name, cfg.description);
      ContentTrims(cfg.content);
      TrimRightKeeps(cfg.description);
    }
  }

  // ----- paths -----

  /** The names from the root down to a directory. */
  type Path = seq<string>

  /** Where the first `n` parts of a relative path lead: empty parts and dots stay, two dots go up. */
  function Walk(base: Path, parts: seq<string>, n: nat): Path
    requires n <= |parts|
  {
    if n == 0 then base
    else
      var p := Walk(base, parts, n - 1);
      if parts[n - 1] == "" || parts[n - 1] == "." then p
      else if parts[n - 1] != ".." then p + [parts[n - 1]]
      else if p == [] then p else p[..|p| - 1]
  }

  /** filepath.Join on an absolute base: any name leads somewhere, also outside the base. */
  function DirOf(base: Path, name: string): Path {
    Walk(base, Split(name, "/"), |Split(name, "/")|)
  }

  /** The name of one directory inside another. */
  predicate Component(name: string) {
    name != "" && '/' !in name && name != "." && name != ".."
  }

  lemma ComponentIsChild(base: Path, name: string)
    requires Component(name)
    ensures DirOf(base, name) == base + [name]
  {
    SplitCharNone(name, '/');
    assert Walk(base, [name], 0) == base;
  }

  lemma {:induction false} WalkInTwo(base: Path, a: seq<string>, b: seq<string>, n: nat)
    requires n <= |b|
    ensures Walk(base, a + b, |a| + n) == Walk(Walk(base, a, |a|), b, n)
  {
    if n == 0 {
      WalkPrefix(base, a, b, |a|);
    } else {
      WalkInTwo(base, a, b, n - 1);
      assert (a + b)[|a| + n - 1] == b[n - 1];
    }
  }

  lemma {:induction false} WalkPrefix(base: Path, a: seq<string>, b: seq<string>, n: nat)
    requires n <= |a|
    ensures Walk(base, a + b, n) == Walk(base, a, n)
  {
    if n > 0 { WalkPrefix(base, a, b, n - 1); }
  }

  /** A path leads where its second half leads from where its first half leads. */
  lemma PathInTwo(base: Path, a: string, b: string)
    ensures DirOf(base, a + "/" + b) == DirOf(DirOf(base, a), b)
  {
    SplitJoined(a, '/', b);
    WalkInTwo(base, Split(a, "/"), Split(b, "/"), |Split(b, "/")|);
  }

  lemma WalkOne(p: Path, x: string)
    ensures x == "" || x == "." ==> Walk(p, [x], 1) == p
    ensures x == ".." ==> Walk(p, [x], 1) == if p == [] then p else p[..|p| - 1]
  {
    assert [x][0] == x && Walk(p, [x], 0) == p;
  }

  /** Nothing and a dot stay where they are, two dots go up, but not above the root. */
  lemma SpecialNames(base: Path, d: string)
    ensures DirOf(base, "") == base && DirOf(base, ".") == base
    ensures DirOf(base + [d], "..") == base && DirOf([], "..") == []
  {
    SplitCharNone("", '/');
    SplitCharNone(".", '/');
    SplitCharNone("..", '/');
    WalkOne(base, "");
    WalkOne(base, ".");
    WalkOne(base + [d], "..");
    WalkOne([], "..");
    assert (base + [d])[..|base + [d]| - 1] == base;
  }

  // ----- the directories of skills -----

  /** The directories there are, each with its document if it has one. */
  type Dirs = map<Path, Option<string>>

  /** The directory a path is in; the root is in itself. */
  function Parent(p: Path): Path {
    if p == [] then [] else p[..|p| - 1]
  }

  /** Every directory is in a directory. */
  ghost predicate IsTree(dirs: Dirs) {
    forall p {:trigger Parent(p)} :: p in dirs ==> Parent(p) in dirs
  }

  const DISABLED := ".disabled-"

  predicate Hidden(dir: string) {
    HasPrefix(dir, ".")
  }

  /** Every directory whose name begins with a dot is hidden, and a disabled one begins with a dot. */
  lemma DotsAreHidden(dir: string)
    ensures Hidden(dir) <==> dir != "" && dir[0] == '.'
    ensures DISABLED + dir == ".disabled-" + dir && Hidden(DISABLED + dir)
  {
    if dir != "" { assert dir[..1] == [dir[0]]; }
    assert (DISABLED + dir)[..1] == ".";
  }

  /** Creating a directory and those it is in, as far as they are missing. */
  function MadeAll(dirs: Dirs, at: Path): (r: Dirs)
    ensures forall p :: p in r <==> p in dirs || p <= at
    ensures forall p :: p in r ==> r[p] == if p in dirs then dirs[p] else None
  {
    assert forall p: Path :: p <= at ==> p == at[..|p|];
    map p | p in dirs.Keys + (set k | 0 <= k <= |at| :: at[..k]) :: if p in dirs then dirs[p] else None
  }

  /** Installing puts a document into a directory, which is made if need be. */
  function Installed(dirs: Dirs, at: Path, text: string): Dirs {
    MadeAll(dirs, at)[at := Some(text)]
  }

  /** After a rename of `src` to `dst`: where a path comes from. */
  function OldPath(q: Path, src: Path, dst: Path): Path {
    if dst <= q then src + q[|dst|..] else q
  }

  function NewPath(p: Path, src: Path, dst: Path): Path {
    if src <= p then dst + p[|src|..] else p
  }

  lemma {:induction false} NothingInside(dirs: Dirs, at: Path, q: Path)
    requires IsTree(dirs) && at !in dirs && q in dirs
    ensures !(at <= q)
    decreases |q|
  {
    assert q[..|q|] == q;
    if at <= q {
      assert at == q[..|at|];
      if |at| < |q| {
        assert at <= Parent(q);
        NothingInside(dirs, at, Parent(q));
      }
    }
  }

  lemma OldOfNew(dirs: Dirs, src: Path, dst: Path, p: Path)
    requires IsTree(dirs) && dst !in dirs && p in dirs
    ensures OldPath(NewPath(p, src, dst), src, dst) == p
  {
    NothingInside(dirs, dst, p);
    if src <= p {
      assert (dst + p[|src|..])[|dst|..] == p[|src|..];
      assert p == src + p[|src|..];
    }
  }

  lemma NewOfOld(src: Path, dst: Path, q: Path)
    requires dst <= q || !(src <= q)
    ensures NewPath(OldPath(q, src, dst), src, dst) == q
  {
    if dst <= q {
      assert (src + q[|dst|..])[|src|..] == q[|dst|..];
      assert q == dst + q[|dst|..];
    }
  }

  predicate CanRename(dirs: Dirs, src: Path, dst: Path) {
    src in dirs && dst !in dirs && dst != [] && Parent(dst) in dirs && !(src <= dst)
  }

  function NewPaths(dirs: Dirs, src: Path, dst: Path): set<Path> {
    set p | p in dirs :: NewPath(p, src, dst)
  }

  /**
   A rename of directories, with all that is in them: it needs the source and the directory to put
   it in, nothing in its way, and a place outside the source.
   */
  function Renamed(dirs: Dirs, src: Path, dst: Path): (r: Option<Dirs>)
    requires IsTree(dirs)
    ensures r.Some? <==> CanRename(dirs, src, dst)
  {
    if !CanRename(dirs, src, dst) then None
    else
      RenameIsOneToOne(dirs, src, dst);
      Some(map q | q in NewPaths(dirs, src, dst) :: dirs[OldPath(q, src, dst)])
  }

  lemma RenameIsOneToOne(dirs: Dirs, src: Path, dst: Path)
    requires IsTree(dirs) && CanRename(dirs, src, dst)
    ensures forall q :: q in NewPaths(dirs, src, dst) ==> OldPath(q, src, dst) in dirs
  {
    forall q | q in NewPaths(dirs, src, dst) ensures OldPath(q, src, dst) in dirs {
      var p :| p in dirs && q == NewPath(p, src, dst);
      OldOfNew(dirs, src, dst, p);
    }
  }

  /** What is at a path after a rename: what was where it comes from, unless it has gone. */
  lemma RenamedAt(dirs: Dirs, src: Path, dst: Path, q: Path)
    requires IsTree(dirs) && CanRename(dirs, src, dst)
    ensures var after := Renamed(dirs, src, dst).value;
            && (q in after <==> OldPath(q, src, dst) in dirs && (dst <= q || !(src <= q)))
            && (q in after ==> after[q] == dirs[OldPath(q, src, dst)])
  {
    if OldPath(q, src, dst) in dirs && (dst <= q || !(src <= q)) {
      NewOfOld(src, dst, q);
      assert NewPath(OldPath(q, src, dst), src, dst) in NewPaths(dirs, src, dst);
    }
    if q in NewPaths(dirs, src, dst) {
      var p :| p in dirs && q == NewPath(p, src, dst);
      OldOfNew(dirs, src, dst, p);
    }
  }

  lemma RenamedIsTree(dirs: Dirs, src: Path, dst: Path)
    requires IsTree(dirs) && CanRename(dirs, src, dst)
    ensures IsTree(Renamed(dirs, src, dst).value)
  {
    var after := Renamed(dirs, src, dst).value;
    forall q | q in after ensures Parent(q) in after {
      RenamedAt(dirs, src, dst, q);
      ParentStays(dirs, src, dst, q);
      RenamedAt(dirs, src, dst, Parent(q));
    }
  }

  lemma ParentStays(dirs: Dirs, src: Path, dst: Path, q: Path)
    requires IsTree(dirs) && CanRename(dirs, src, dst)
    requires OldPath(q, src, dst) in dirs && (dst <= q || !(src <= q))
    ensures OldPath(Parent(q), src, dst) in dirs && (dst <= Parent(q) || !(src <= Parent(q)))
  {
    var up, p := Parent(q), OldPath(q, src, dst);
    NothingInside(dirs, dst, Parent(dst));
    if dst <= q && q != dst {
      assert dst <= up;
      assert Parent(p) == src + up[|dst|..];
    } else if q == dst {
      assert up <= dst;
    } else {
      assert Parent(p) == up && up <= q;
    }
  }

  lemma CanRenameBack(dirs: Dirs, src: Path, dst: Path)
    requires IsTree(dirs) && CanRename(dirs, src, dst)
    ensures CanRename(Renamed(dirs, src, dst).value, dst, src)
  {
    var up := Parent(src);
    NothingInside(dirs, dst, src);
    NothingInside(dirs, dst, up);
    assert dst[|dst|..] == [] && src + [] == src;
    RenamedAt(dirs, src, dst, dst);
    RenamedAt(dirs, src, dst, src);
    RenamedAt(dirs, src, dst, up);
  }

  lemma BackAgain(dirs: Dirs, src: Path, dst: Path, q: Path)
    requires IsTree(dirs) && CanRename(dirs, src, dst)
    requires IsTree(Renamed(dirs, src, dst).value) && CanRename(Renamed(dirs, src, dst).value, dst, src)
    ensures var on := Renamed(Renamed(dirs, src, dst).value, dst, src).value;
            (q in on <==> q in dirs) && (q in dirs ==> on[q] == dirs[q])
  {
    var x := OldPath(q, dst, src);
    RenamedAt(Renamed(dirs, src, dst).value, dst, src, q);
    RenamedAt(dirs, src, dst, x);
    if q in dirs { NothingInside(dirs, dst, q); }
    if src <= q {
      assert x[|dst|..] == q[|src|..];
      assert src + q[|src|..] == q;
    }
  }

  lemma SameMap(a: Dirs, b: Dirs)
    requires forall q :: (q in a <==> q in b) && (q in b ==> a[q] == b[q])
    ensures a == b
  {}

  /** A rename can be undone. */
  lemma RenameBack(dirs: Dirs, src: Path, dst: Path)
    requires IsTree(dirs) && CanRename(dirs, src, dst)
    ensures IsTree(Renamed(dirs, src, dst).value)
    ensures Renamed(Renamed(dirs, src, dst).value, dst, src) == Some(dirs)
  {
    RenamedIsTree(dirs, src, dst);
    CanRenameBack(dirs, src, dst);
    var on := Renamed(Renamed(dirs, src, dst).value, dst, src).value;
    forall q ensures (q in on <==> q in dirs) && (q in dirs ==> on[q] == dirs[q]) {
      BackAgain(dirs, src, dst, q);
    }
    SameMap(on, dirs);
  }

  // ----- the listing -----

  /** The visible directory `d` holds a document that reads as this skill. */
  predicate ActiveAt(dirs: Dirs, base: Path, d: string, skill: SkillConfig) {
    && !Hidden(d) && base + [d] in dirs && dirs[base + [d]].Some?
    && Parse(d, dirs[base + [d]].value) == Ok(skill)
  }

  /** The directories, among the named ones, that hold a skill. */
  ghost function HoldersIn(dirs: Dirs, base: Path, names: seq<string>, skill: SkillConfig): set<string> {
    set d | d in names && ActiveAt(dirs, base, d, skill)
  }

  /** Each skill is there once for every directory that holds it. */
  ghost predicate Counts(dirs: Dirs, base: Path, names: seq<string>, skills: seq<SkillConfig>) {
    forall s :: multiset(skills)[s] == |HoldersIn(dirs, base, names, s)|
  }

  lemma HoldersMore(dirs: Dirs, base: Path, names: seq<string>, d: string, s: SkillConfig)
    requires d !in names
    ensures |HoldersIn(dirs, base, names + [d], s)|
         == |HoldersIn(dirs, base, names, s)| + if ActiveAt(dirs, base, d, s) then 1 else 0
  {
    var before, after := HoldersIn(dirs, base, names, s), HoldersIn(dirs, base, names + [d], s);
    assert d !in before && after == if ActiveAt(dirs, base, d, s) then before + {d} else before;
  }

  lemma AppendCounts<T>(a: seq<T>, found: seq<T>, x: T)
    requires |found| <= 1
    ensures multiset(a + found)[x] == multiset(a)[x] + if x in found then 1 else 0
  {
    assert multiset(a + found) == multiset(a) + multiset(found);
    if |found| == 1 { assert found == [found[0]]; }
  }

  lemma CountsMore(dirs: Dirs, base: Path, names: seq<string>, skills: seq<SkillConfig>, d: string,
                   found: seq<SkillConfig>)
    requires Counts(dirs, base, names, skills) && d !in names
    requires |found| <= 1 && forall s :: s in found <==> ActiveAt(dirs, base, d, s)
    ensures Counts(dirs, base, names + [d], skills + found)
  {
    forall s ensures multiset(skills + found)[s] == |HoldersIn(dirs, base, names + [d], s)| {
      HoldersMore(dirs, base, names, d, s);
      AppendCounts(skills, found, s);
    }
  }

  /** The skill that a directory of the base shows, if it shows one. */
  function SkillAt(dirs: Dirs, base: Path, d: string): seq<SkillConfig> {
    if Hidden(d) || base + [d] !in dirs || dirs[base + [d]].None? then []
    else
      match Parse(d, dirs[base + [d]].value)
      case Err(_) => []
      case Ok(skill) => [skill]
  }

  function SkillReader(dirs: Dirs, base: Path): string -> seq<SkillConfig> {
    d => SkillAt(dirs, base, d)
  }

  lemma SkillAtIsActive(dirs: Dirs, base: Path, d: string)
    ensures |SkillAt(dirs, base, d)| <= 1 && SkillReader(dirs, base)(d) == SkillAt(dirs, base, d)
    ensures forall s :: s in SkillAt(dirs, base, d) <==> ActiveAt(dirs, base, d, s)
  {}

  lemma {:induction false} GatheredCounts(dirs: Dirs, base: Path, order: seq<string>, n: nat)
    requires n <= |order| && forall i, j :: 0 <= i < j < |order| ==> order[i] != order[j]
    ensures Counts(dirs, base, order[..n], Gather(SkillReader(dirs, base), order, n))
  {
    if n == 0 {
      assert forall s :: HoldersIn(dirs, base, [], s) == {};
      assert order[..0] == [];
    } else {
      var d := order[n - 1];
      GatheredCounts(dirs, base, order, n - 1);
      assert d !in order[..n - 1] && order[..n] == order[..n - 1] + [d];
      SkillAtIsActive(dirs, base, d);
      CountsMore(dirs, base, order[..n - 1], Gather(SkillReader(dirs, base), order, n - 1), d, SkillAt(dirs, base, d));
    }
  }

  class SkillManager {
    const base: Path
    var dirs: Dirs

    ghost predicate Valid()
      reads this
    {
      IsTree(dirs)
    }

    constructor (base: Path, dirs: Dirs)
      requires IsTree(dirs)
      ensures Valid() && this.base == base && this.dirs == dirs
    {
      this.base, this.dirs := base, dirs;
    }

    method Install(cfg: SkillConfig)
      requires Valid()
      modifies this
      ensures Valid() && dirs == Installed(old(dirs), DirOf(base, cfg.name), Print(cfg))
    {
      var dir := DirOf(base, cfg.name);
      dirs := MadeAll(dirs, dir);
      dirs := dirs[dir := Some(Print(cfg))];
    }

    method Disable(name: string) returns (ok: bool)
      requires Valid()
      modifies this
      ensures Valid()
      ensures var r := Renamed(old(dirs), DirOf(base, name), DirOf(base, DISABLED + name));
              ok == r.Some? && dirs == if ok then r.value else old(dirs)
    {
      ok := Rename(DirOf(base, name), DirOf(base, DISABLED + name));
    }

    method Enable(name: string) returns (ok: bool)
      requires Valid()
      modifies this
      ensures Valid()
      ensures var r := Renamed(old(dirs), DirOf(base, DISABLED + name), DirOf(base, name));
              ok == r.Some? && dirs == if ok then r.value else old(dirs)
    {
      ok := Rename(DirOf(base, DISABLED + name), DirOf(base, name));
    }

    method Rename(src: Path, dst: Path) returns (ok: bool)
      requires Valid()
      modifies this
      ensures Valid()
      ensures var r := Renamed(old(dirs), src, dst); ok == r.Some? && dirs == if ok then r.value else old(dirs)
    {
      var after := Renamed(dirs, src, dst);
      ok := after.Some?;
      if ok {
        RenamedIsTree(dirs, src, dst);
        dirs := after.value;
      }
    }

    /** One directory: hidden ones, those without a document and malformed documents are passed over. */
    method Look(name: string) returns (found: seq<SkillConfig>)
      requires base + [name] in dirs
      ensures found == SkillReader(dirs, base)(name)
    {
      if Hidden(name) || dirs[base + [name]].None? { return []; }
      var skill := ParseSkillMD(name, dirs[base + [name]].value);
      found := if skill.Ok? then [skill.value] else [];
    }

    /** `order` is the listing of the base directory. */
    method List(order: seq<string>) returns (skills: seq<SkillConfig>)
      requires forall d :: d in order <==> base + [d] in dirs
      requires forall i, j :: 0 <= i < j < |order| ==> order[i] != order[j]
      ensures skills == Gather(SkillReader(dirs, base), order, |order|)
      ensures Counts(dirs, base, order, skills)
      ensures forall s :: s in skills <==> exists d :: ActiveAt(dirs, base, d, s)
    {
      skills := [];
      for i := 0 to |order|
        invariant skills == Gather(SkillReader(dirs, base), order, i)
      {
        assert order[i] in order;
        var found := Look(order[i]);
        skills := skills + found;
      }
      GatheredCounts(dirs, base, order, |order|);
      assert order[..|order|] == order;
      forall s ensures s in skills <==> exists d :: ActiveAt(dirs, base, d, s) {
        ListedMeansHeld(dirs, base, order, skills, s);
      }
    }
  }

  lemma ListedMeansHeld(dirs: Dirs, base: Path, order: seq<string>, skills: seq<SkillConfig>, s: SkillConfig)
    requires Counts(dirs, base, order, skills)
    requires forall d :: d in order <==> base + [d] in dirs
    ensures s in skills <==> exists d :: ActiveAt(dirs, base, d, s)
  {
    var holders := HoldersIn(dirs, base, order, s);
    assert multiset(skills)[s] == |holders|;
    assert s in skills <==> s in multiset(skills);
    if d :| ActiveAt(dirs, base, d, s) {
      assert d in holders;
    } else {
      assert holders == {};
    }
  }

  // ----- what installing and disabling do to the listing -----

  /** In the directory a skill is installed into, the listing finds its document, and elsewhere what it found before. */
  lemma InstalledAt(dirs: Dirs, base: Path, cfg: SkillConfig, d: string, s: SkillConfig)
    ensures ActiveAt(Installed(dirs, DirOf(base, cfg.name), Print(cfg)), base, d, s)
       <==> if DirOf(base, cfg.name) == base + [d] then !Hidden(d) && Parse(d, Print(cfg)) == Ok(s)
            else ActiveAt(dirs, base, d, s)
  {}

  /** A skill without a name is written into the base directory itself, and so never listed. */
  lemma NamelessIsNeverListed(dirs: Dirs, base: Path, cfg: SkillConfig, d: string, s: SkillConfig)
    requires cfg.name == ""
    ensures ActiveAt(Installed(dirs, DirOf(base, cfg.name), Print(cfg)), base, d, s) <==> ActiveAt(dirs, base, d, s)
  {
    SpecialNames(base, "");
    InstalledAt(dirs, base, cfg, d, s);
  }

  lemma InstalledIsTree(dirs: Dirs, at: Path, text: string)
    requires IsTree(dirs)
    ensures IsTree(Installed(dirs, at, text))
  {
    var after := Installed(dirs, at, text);
    forall p | p in after ensures Parent(p) in after {
      if p <= at { assert Parent(p) <= at; }
    }
  }

  /** A skill installed under the name of one directory is listed as given exactly if it survives and is not hidden. */
  lemma InstalledIsActive(dirs: Dirs, base: Path, cfg: SkillConfig)
    requires Component(cfg.name)
    ensures ActiveAt(Installed(dirs, DirOf(base, cfg.name), Print(cfg)), base, cfg.name, cfg)
       <==> Survives(cfg) && !Hidden(cfg.name)
  {
    ComponentIsChild(base, cfg.name);
    InstalledAt(dirs, base, cfg, cfg.name, cfg);
    RoundTripExactly(cfg);
  }

  lemma HiddenName(name: string)
    requires Component(name)
    ensures Component(DISABLED + name) && Hidden(DISABLED + name) && DISABLED + name != name
  {
    var h := DISABLED + name;
    assert h[..1] == "." && |h| > |name|;
    assert forall i :: 0 <= i < |h| ==> h[i] == if i < |DISABLED| then DISABLED[i] else name[i - |DISABLED|];
  }

  /** Renaming a directory to a hidden name beside it takes it, and nothing else, from the listing. */
  lemma HidingShows(dirs: Dirs, base: Path, name: string, hidden: string, d: string, s: SkillConfig)
    requires IsTree(dirs) && Hidden(hidden) && CanRename(dirs, base + [name], base + [hidden])
    ensures ActiveAt(Renamed(dirs, base + [name], base + [hidden]).value, base, d, s)
       <==> d != name && ActiveAt(dirs, base, d, s)
  {
    ChildMoves(base, name, d);
    ChildMoves(base, hidden, d);
    RenamedAt(dirs, base + [name], base + [hidden], base + [d]);
  }

  /** Disabling hides one directory and nothing else from the listing, and is undone by enabling. */
  lemma DisableEnable(dirs: Dirs, base: Path, name: string)
    requires IsTree(dirs) && Component(name)
    requires base + [name] in dirs && base + [DISABLED + name] !in dirs
    ensures var src, dst := DirOf(base, name), DirOf(base, DISABLED + name);
            && CanRename(dirs, src, dst) && IsTree(Renamed(dirs, src, dst).value)
            && (forall d, s :: ActiveAt(Renamed(dirs, src, dst).value, base, d, s)
                          <==> d != name && ActiveAt(dirs, base, d, s))
            && Renamed(Renamed(dirs, src, dst).value, dst, src) == Some(dirs)
  {
    var hidden := DISABLED + name;
    HiddenName(name);
    ComponentIsChild(base, name);
    ComponentIsChild(base, hidden);
    ChildMoves(base, name, hidden);
    assert Parent(base + [name]) == base && Parent(base + [hidden]) == base;
    RenameBack(dirs, base + [name], base + [hidden]);
    forall d, s ensures ActiveAt(Renamed(dirs, base + [name], base + [hidden]).value, base, d, s)
                   <==> d != name && ActiveAt(dirs, base, d, s)
    {
      HidingShows(dirs, base, name, hidden, d, s);
    }
  }

  lemma ChildMoves(base: Path, name: string, d: string)
    ensures base + [name] <= base + [d] <==> d == name
  {
    assert (base + [name])[|base|] == name && (base + [d])[|base|] == d;
  }
}
