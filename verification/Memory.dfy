/** The per-agent memory store: markdown files in one directory, keyed by their name without ".md". */
module Memory {
  import opened Wrappers

  predicate IsAlnum(c: char) {
    'a' <= c <= 'z' || '0' <= c <= '9'
  }

  predicate IsNameChar(c: char) {
    IsAlnum(c) || c == '_' || c == '-'
  }

  predicate ValidName(name: string) {
    && name != "" && |name| <= 64
    && IsAlnum(name[0])
    && forall i :: 0 <= i < |name| ==> IsNameChar(name[i])
  }

  /** The pattern of valid names: a lower-case letter or digit, then up to 63 of these, hyphens and underscores. */
  lemma ValidNamesAre(name: string)
    ensures ValidName(name) <==>
              && 1 <= |name| <= 64 && name[0] != '_' && name[0] != '-'
              && forall c :: c in name ==> 'a' <= c <= 'z' || '0' <= c <= '9' || c == '_' || c == '-'
  {
    assert forall i :: 0 <= i < |name| ==> name[i] in name;
  }

  datatype NameError = EmptyName | NameTooLong | NameMalformed

  /** None accepts the name. A non-ASCII name is refused whatever its length in bytes. */
  function ValidateName(name: string): (r: Option<NameError>)
    ensures r == None <==> ValidName(name)
    ensures r == Some(EmptyName) <==> name == ""
    ensures r == Some(NameTooLong) <==> |name| > 64
  {
    if name == "" then Some(EmptyName)
    else if |name| > 64 then Some(NameTooLong)
    else if IsAlnum(name[0]) && forall i :: 0 <= i < |name| ==> IsNameChar(name[i]) then None
    else Some(NameMalformed)
  }

  datatype StoreError = BadName(why: NameError) | NoSuchFile | IoFailure

  datatype Entry = Entry(name: string, content: string)

  const DEFAULT_FILES: seq<string> := ["user", "projects", "skills", "journal", "team"]

  /** The default files can be loaded like any other. */
  lemma DefaultsAreValid(name: string)
    requires name in DEFAULT_FILES
    ensures ValidName(name) && name in ["user", "projects", "skills", "journal", "team"]
  {}

  class Store {
    var files: map<string, string>

    constructor ()
      ensures files == map[]
    {
      files := map[];
    }

    /** Creates the default files that are missing; what exists keeps its content. */
    method Init()
      modifies this
      ensures files.Keys == old(files).Keys + (set n | n in DEFAULT_FILES)
      ensures forall n :: n in files ==> files[n] == if n in old(files) then old(files)[n] else ""
    {
      for i := 0 to |DEFAULT_FILES|
        invariant files.Keys == old(files).Keys + (set n | n in DEFAULT_FILES[..i])
        invariant forall n :: n in files ==> files[n] == if n in old(files) then old(files)[n] else ""
      {
        var name := DEFAULT_FILES[i];
        assert DEFAULT_FILES[..i + 1] == DEFAULT_FILES[..i] + [name];
        if name !in files {
          files := files[name := ""];
        }
      }
      assert DEFAULT_FILES[..|DEFAULT_FILES|] == DEFAULT_FILES;
    }

    method Load(name: string) returns (r: Result<Entry, StoreError>)
      ensures r.Ok? <==> ValidName(name) && name in files
      ensures r.Ok? ==> r.value == Entry(name, files[name])
      ensures r.Err? ==> if ValidName(name) then r.error == NoSuchFile else r.error.BadName?
    {
      var bad := ValidateName(name);
      if bad.Some? { return Err(BadName(bad.value)); }
      if name !in files { return Err(NoSuchFile); }
      r := Ok(Entry(name, files[name]));
    }

    /** `writable` is whether the file system accepts the write. */
    method Save(name: string, content: string, writable: bool) returns (r: Option<StoreError>)
      modifies this
      ensures r == None <==> ValidName(name) && writable
      ensures r.Some? ==> if ValidName(name) then r.value == IoFailure else r.value.BadName?
      ensures files == if r == None then old(files)[name := content] else old(files)
    {
      var bad := ValidateName(name);
      if bad.Some? { return Some(BadName(bad.value)); }
      if !writable { return Some(IoFailure); }
      files := files[name := content];
      r := None;
    }

    method Delete(name: string) returns (r: Option<StoreError>)
      modifies this
      ensures r == None <==> ValidName(name) && name in old(files)
      ensures r.Some? ==> if ValidName(name) then r.value == NoSuchFile else r.value.BadName?
      ensures files == if r == None then old(files) - {name} else old(files)
    {
      var bad := ValidateName(name);
      if bad.Some? { return Some(BadName(bad.value)); }
      if name !in files { return Some(NoSuchFile); }
      files := files - {name};
      r := None;
    }

    /**
     `names` is the directory listing in the order of its file paths, as globbing and
     sorting leave it; the loop skips what cannot be read and keeps that order.
     */
    method LoadAll(names: seq<string>, unreadable: set<string>) returns (entries: seq<Entry>)
      requires forall n :: n in names <==> n in files
      requires SortedByPath(names)
      ensures SortedByPath(seq(|entries|, i requires 0 <= i < |entries| => entries[i].name))
      ensures forall e :: e in entries <==> e.name in files && e.name !in unreadable && e.content == files[e.name]
    {
      entries := [];
      for i := 0 to |names|
        invariant Loaded(files, names[..i], unreadable, entries)
      {
        assert names[i] in names && names[..i + 1] == names[..i] + [names[i]];
        assert forall n :: n in names[..i] ==> PathBefore(n, names[i]);
        OneMoreEntry(files, names[..i], unreadable, entries, names[i]);
        if names[i] !in unreadable {
          entries := entries + [Entry(names[i], files[names[i]])];
        }
      }
      assert names[..|names|] == names;
    }
  }

  /** The readable ones of the named files, in the order of their paths. */
  ghost predicate Loaded(files: map<string, string>, names: seq<string>, unreadable: set<string>, entries: seq<Entry>) {
    && (forall n :: n in names ==> n in files)
    && (forall j, k :: 0 <= j < k < |entries| ==> PathBefore(entries[j].name, entries[k].name))
    && (forall e :: e in entries <==> e.name in names && e.name !in unreadable && e.content == files[e.name])
  }

  lemma OneMoreEntry(files: map<string, string>, names: seq<string>, unreadable: set<string>,
                     entries: seq<Entry>, name: string)
    requires Loaded(files, names, unreadable, entries) && name in files
    requires forall n :: n in names ==> PathBefore(n, name)
    ensures name in unreadable ==> Loaded(files, names + [name], unreadable, entries)
    ensures name !in unreadable ==>
              Loaded(files, names + [name], unreadable, entries + [Entry(name, files[name])])
  {
    assert forall k :: 0 <= k < |entries| ==> entries[k] in entries;
  }

  // ----- the order of a listing -----

  /** Go's string order. */
  predicate Less(a: string, b: string) {
    b != "" && (a == "" || a[0] < b[0] || (a[0] == b[0] && Less(a[1..], b[1..])))
  }

  predicate PathBefore(a: string, b: string) {
    Less(a + ".md", b + ".md")
  }

  predicate SortedByPath(names: seq<string>) {
    forall i, j :: 0 <= i < j < |names| ==> PathBefore(names[i], names[j])
  }

  lemma {:induction false} LessIsTotal(a: string, b: string)
    requires a != b
    ensures Less(a, b) <==> !Less(b, a)
  {
    if a != "" && b != "" && a[0] == b[0] {
      assert a == [a[0]] + a[1..] && b == [b[0]] + b[1..];
      LessIsTotal(a[1..], b[1..]);
    }
  }

  /** `b` is `a` with something after it that sorts, with the suffix, before the suffix alone. */
  predicate Overtakes(a: string, b: string) {
    |a| < |b| && b[..|a|] == a && Less(b[|a|..] + ".md", ".md")
  }

  /**
   The listing is documented as alphabetical. For any two files it is alphabetical in their names
   exactly when neither name is the other followed by something that sorts before ".md".
   */
  lemma {:induction false} PathOrderIsNameOrder(a: string, b: string)
    requires a != b
    ensures (PathBefore(a, b) <==> Less(a, b)) <==> !Overtakes(a, b) && !Overtakes(b, a)
  {
    if a != "" && b != "" {
      assert (a + ".md")[1..] == a[1..] + ".md" && (b + ".md")[1..] == b[1..] + ".md";
      if a[0] == b[0] {
        assert a == [a[0]] + a[1..] && b == [b[0]] + b[1..];
        PathOrderIsNameOrder(a[1..], b[1..]);
        OvertakesTail(a, b);
        OvertakesTail(b, a);
      }
    } else {
      var x := if a == "" then b else a;
      assert "" + ".md" == ".md" && x[0..] == x;
      assert |x + ".md"| > |".md"|;
      LessIsTotal(x + ".md", ".md");
    }
  }

  lemma OvertakesTail(a: string, b: string)
    requires a != "" && b != "" && a[0] == b[0]
    ensures Overtakes(a, b) <==> Overtakes(a[1..], b[1..])
  {
    if |a| < |b| {
      assert b[..|a|] == [b[0]] + b[1..][..|a| - 1] && a == [a[0]] + a[1..];
      assert b[1..|a|] == b[..|a|][1..];
      assert b[|a|..] == b[1..][|a| - 1..];
    }
  }

  /** Among the names the store accepts, only a hyphen sorts before the '.' of ".md". */
  lemma OvertakesByHyphen(a: string, b: string)
    requires ValidName(b)
    ensures Overtakes(a, b) <==> |a| < |b| && b[..|a|] == a && b[|a|] == '-'
  {
    if |a| < |b| {
      var r := b[|a|..];
      assert (r + ".md")[0] == b[|a|] && IsNameChar(b[|a|]);
    }
  }

  /** The listing is not alphabetical in general: neither for names the store accepts nor for others. */
  lemma NotAlphabetical()
    ensures ValidName("a") && ValidName("a-b") && Less("a", "a-b") && PathBefore("a-b", "a")
    ensures Less("a", "a b") && PathBefore("a b", "a")
  {
    HyphenOrSpace('-');
    HyphenOrSpace(' ');
    assert "a" + ['-', 'b'] == "a-b" && "a" + [' ', 'b'] == "a b";
  }

  lemma HyphenOrSpace(c: char)
    requires c == '-' || c == ' '
    ensures Less("a", "a" + [c, 'b']) && PathBefore("a" + [c, 'b'], "a")
  {
    var x := "a" + [c, 'b'];
    assert x[1..] == [c, 'b'] && "a"[1..] == "";
    var p, q := x + ".md", "a" + ".md";
    assert p[0] == q[0] && p[1..][0] == c && q[1..][0] == '.';
    assert Less(p[1..], q[1..]);
  }
}
