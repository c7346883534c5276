/**
 Go's `strings` functions, on texts seen as sequences of code points.
 The search functions carry their meaning as contracts; the lemmas below say where a
 pattern can and cannot occur in a concatenation, which is what the parsers rest on.
 */
module Text {
  import opened Wrappers

  // ----- white space -----

  /** The white space of Go's unicode.IsSpace. */
  predicate IsSpace(c: char) {
    || c == ' ' || c == '\t' || c == '\n' || c == '\r' || c == '\U{000B}' || c == '\U{000C}'
    || c == '\U{0085}' || c == '\U{00A0}' || c == '\U{1680}' || '\U{2000}' <= c <= '\U{200A}'
    || c == '\U{2028}' || c == '\U{2029}' || c == '\U{202F}' || c == '\U{205F}' || c == '\U{3000}'
  }

  /** In Latin-1 these are the eight characters Go's documentation lists. */
  lemma LatinSpaces(c: char)
    ensures c <= '\U{00FF}' ==>
              (IsSpace(c) <==> c in ['\t', '\n', '\U{000B}', '\U{000C}', '\r', ' ', '\U{0085}', '\U{00A0}'])
  {}

  predicate Blank(s: string) {
    forall i :: 0 <= i < |s| ==> IsSpace(s[i])
  }

  /** Neither end is white space. */
  predicate Trimmed(s: string) {
    s != "" ==> !IsSpace(s[0]) && !IsSpace(s[|s| - 1])
  }

  function TrimLeft(s: string): (r: string)
    ensures r != "" ==> !IsSpace(r[0])
  {
    if s != "" && IsSpace(s[0]) then TrimLeft(s[1..]) else s
  }

  function TrimRight(s: string): (r: string)
    ensures r != "" ==> !IsSpace(r[|r| - 1])
  {
    if s != "" && IsSpace(s[|s| - 1]) then TrimRight(s[..|s| - 1]) else s
  }

  function TrimSpace(s: string): string {
    TrimRight(TrimLeft(s))
  }

  lemma {:induction false} TrimLeftSplit(s: string) returns (a: string)
    ensures s == a + TrimLeft(s) && Blank(a)
  {
    if s != "" && IsSpace(s[0]) {
      var a' := TrimLeftSplit(s[1..]);
      a := [s[0]] + a';
      assert s == [s[0]] + s[1..] == [s[0]] + (a' + TrimLeft(s[1..]));
    } else {
      a := "";
    }
  }

  lemma {:induction false} TrimRightSplit(s: string) returns (b: string)
    ensures s == TrimRight(s) + b && Blank(b)
  {
    if s != "" && IsSpace(s[|s| - 1]) {
      var t := s[..|s| - 1];
      var b' := TrimRightSplit(t);
      b := b' + [s[|s| - 1]];
      assert s == t + [s[|s| - 1]] == (TrimRight(t) + b') + [s[|s| - 1]];
    } else {
      b := "";
    }
  }

  /** Trimming takes blanks off both ends and leaves a trimmed text. */
  lemma TrimSplit(s: string) returns (a: string, b: string)
    ensures s == a + TrimSpace(s) + b && Blank(a) && Blank(b) && Trimmed(TrimSpace(s))
  {
    a := TrimLeftSplit(s);
    var l := TrimLeft(s);
    b := TrimRightSplit(l);
    var t := TrimSpace(s);
    assert l == t + b;
    if t != "" {
      assert t[0] == l[0];
    }
    Assoc(a, t, b);
  }

  lemma {:induction false} TrimLeftPad(a: string, s: string)
    requires Blank(a) && (s != "" ==> !IsSpace(s[0]))
    ensures TrimLeft(a + s) == s
  {
    if a == "" {
      assert a + s == s;
    } else {
      TrimLeftPad(a[1..], s);
      assert (a + s)[1..] == a[1..] + s;
    }
  }

  lemma {:induction false} TrimRightPad(s: string, b: string)
    requires Blank(b) && (s != "" ==> !IsSpace(s[|s| - 1]))
    ensures TrimRight(s + b) == s
  {
    if b == "" {
      assert s + b == s;
    } else {
      TrimRightPad(s, b[..|b| - 1]);
      assert (s + b)[..|s + b| - 1] == s + b[..|b| - 1];
    }
  }

  /** Conversely, blanks around a trimmed text are exactly what trimming takes off. */
  lemma TrimPad(a: string, s: string, b: string)
    requires Blank(a) && Blank(b) && Trimmed(s)
    ensures TrimSpace(a + s + b) == s
  {
    if s == "" {
      TrimLeftPad(a + b, "");
      assert a + s + b == a + b + "";
    } else {
      TrimLeftPad(a, s + b);
      assert a + s + b == a + (s + b);
      TrimRightPad(s, b);
    }
  }

  lemma TrimTrimmed(s: string)
    requires Trimmed(s)
    ensures TrimSpace(s) == s
  {
    TrimPad("", s, "");
    assert "" + s + "" == s;
  }

  lemma TrimmedAround(l: string, core: string, r: string)
    requires core != "" && Trimmed(core)
    requires l != "" ==> !IsSpace(l[0])
    requires r != "" ==> !IsSpace(r[|r| - 1])
    ensures Trimmed(l + core + r)
  {
    var m := l + core + r;
    assert m[0] == if l != "" then l[0] else core[0];
    assert m[|m| - 1] == if r != "" then r[|r| - 1] else core[|core| - 1];
  }

  lemma Assoc(a: string, b: string, c: string)
    ensures (a + b) + c == a + (b + c)
  {}

  lemma Regroup(a: string, l: string, core: string, r: string, b: string)
    ensures (a + l) + core + (r + b) == a + (l + core + r) + b
  {
    Assoc((a + l) + core, r, b);
    Assoc(a, l, core);
    Assoc(a, l + core, r);
  }

  /** A trimmed core keeps blanks of its surroundings only on its own side. */
  lemma TrimAround(pre: string, core: string, post: string)
    requires core != "" && Trimmed(core)
    ensures TrimSpace(pre + core + post) == TrimLeft(pre) + core + TrimRight(post)
  {
    var a := TrimLeftSplit(pre);
    var b := TrimRightSplit(post);
    var l, r := TrimLeft(pre), TrimRight(post);
    var m := l + core + r;
    TrimmedAround(l, core, r);
    TrimPad(a, m, b);
    Regroup(a, l, core, r, b);
  }

  lemma TrimAfterCore(core: string, post: string)
    requires core != "" && Trimmed(core)
    ensures TrimSpace(core + post) == core + TrimRight(post)
  {
    TrimAround("", core, post);
    assert TrimLeft("") + core == "" + core == core;
  }

  // ----- searching -----

  /** `p` occurs in `s` at position `i`. */
  predicate At(s: string, p: string, i: int) {
    0 <= i && i + |p| <= |s| && s[i..i + |p|] == p
  }

  ghost predicate Has(s: string, p: string) {
    exists i :: At(s, p, i)
  }

  function IndexFrom(s: string, p: string, from: nat): (r: int)
    requires from <= |s|
    ensures r == -1 || (from <= r && At(s, p, r))
    ensures forall k :: from <= k && (r == -1 || k < r) ==> !At(s, p, k)
    decreases |s| - from
  {
    if At(s, p, from) then from
    else if from == |s| then -1
    else IndexFrom(s, p, from + 1)
  }

  /** Position of the first occurrence, or -1. */
  function Index(s: string, p: string): (r: int)
    ensures r == -1 <==> !Has(s, p)
    ensures r != -1 ==> At(s, p, r)
    ensures forall k :: r != -1 && k < r ==> !At(s, p, k)
  {
    IndexFrom(s, p, 0)
  }

  function Contains(s: string, p: string): (r: bool)
    ensures r <==> Has(s, p)
  {
    Index(s, p) != -1
  }

  lemma FirstAt(s: string, p: string, i: int)
    requires At(s, p, i)
    requires forall k :: 0 <= k < i ==> !At(s, p, k)
    ensures Index(s, p) == i
  {}

  function HasPrefix(s: string, p: string): bool {
    |p| <= |s| && s[..|p|] == p
  }

  function HasSuffix(s: string, p: string): bool {
    |p| <= |s| && s[|s| - |p|..] == p
  }

  function TrimSuffix(s: string, p: string): string {
    if HasSuffix(s, p) then s[..|s| - |p|] else s
  }

  /** One differing character refutes an occurrence. */
  lemma NotAt(s: string, p: string, i: int, k: int)
    requires 0 <= k < |p|
    requires 0 <= i && i + |p| <= |s| ==> s[i + k] != p[k]
    ensures !At(s, p, i)
  {
    if 0 <= i && i + |p| <= |s| {
      assert s[i..i + |p|][k] == s[i + k];
    }
  }

  lemma AtChar(s: string, p: string, i: int, k: int)
    requires At(s, p, i) && 0 <= k < |p|
    ensures s[i + k] == p[k]
  {
    assert s[i..i + |p|][k] == s[i + k];
  }

  /** An occurrence in `a + b` lies in `a`, lies in `b`, or crosses the seam. */
  lemma AtConcat(a: string, b: string, p: string, i: int)
    requires At(a + b, p, i)
    ensures i + |p| <= |a| ==> At(a, p, i)
    ensures |a| <= i ==> At(b, p, i - |a|)
  {
    if i + |p| <= |a| {
      assert a[i..i + |p|] == (a + b)[i..i + |p|];
    }
    if |a| <= i {
      assert b[i - |a|..i - |a| + |p|] == (a + b)[i..i + |p|];
    }
  }

  lemma AtShift(a: string, b: string, p: string, i: int)
    requires At(b, p, i)
    ensures At(a + b, p, |a| + i)
  {
    assert (a + b)[|a| + i..|a| + i + |p|] == b[i..i + |p|];
  }

  lemma AtLeft(a: string, b: string, p: string, i: int)
    requires At(a, p, i)
    ensures At(a + b, p, i)
  {
    assert (a + b)[i..i + |p|] == a[i..i + |p|];
  }

  /** A part of a text has no pattern the text does not have. */
  lemma HasInside(a: string, s: string, b: string, p: string)
    requires Has(s, p)
    ensures Has(a + s + b, p)
  {
    var i :| At(s, p, i);
    AtShift(a, s, p, i);
    AtLeft(a + s, b, p, |a| + i);
  }

  /** A character outside the pattern separates its occurrences. */
  lemma AtSeparated(a: string, c: char, b: string, p: string, i: int)
    requires c !in p && p != ""
    requires At(a + [c] + b, p, i)
    ensures At(a, p, i) || At(b, p, i - |a| - 1)
  {
    var s := a + [c] + b;
    AtConcat(a + [c], b, p, i);
    if i + |p| <= |a| + 1 { AtConcat(a, [c], p, i); }
    if 0 <= |a| - i < |p| {
      assert s[|a|] == c;
      NotAt(s, p, i, |a| - i);
    }
  }

  lemma HasSeparated(a: string, c: char, b: string, p: string)
    requires c !in p && p != ""
    ensures Has(a + [c] + b, p) <==> Has(a, p) || Has(b, p)
  {
    if Has(a + [c] + b, p) {
      var i :| At(a + [c] + b, p, i);
      AtSeparated(a, c, b, p, i);
    }
    if Has(a, p) { HasInside("", a, [c] + b, p); assert "" + a + ([c] + b) == a + [c] + b; }
    if Has(b, p) { HasInside(a + [c], b, "", p); assert a + [c] + b + "" == a + [c] + b; }
  }

  lemma HasFirstChar(s: string, p: string)
    requires p != "" && p[0] !in s
    ensures !Has(s, p)
  {
    forall i ensures !At(s, p, i) {
      NotAt(s, p, i, 0);
    }
  }

  // ----- splitting -----

  /** strings.Split with a non-empty separator. */
  function Split(s: string, sep: string): (r: seq<string>)
    requires sep != ""
    ensures |r| >= 1
    ensures forall i :: 0 <= i < |r| ==> !Has(r[i], sep)
    decreases |s|
  {
    var i := Index(s, sep);
    if i == -1 then [s]
    else
      NoEarlier(s, sep, i);
      [s[..i]] + Split(s[i + |sep|..], sep)
  }

  /** strings.SplitN with a non-empty separator and a positive count. */
  function SplitN(s: string, sep: string, n: nat): (r: seq<string>)
    requires sep != "" && n >= 1
    ensures 1 <= |r| <= n
    decreases n
  {
    var i := Index(s, sep);
    if n == 1 || i == -1 then [s] else [s[..i]] + SplitN(s[i + |sep|..], sep, n - 1)
  }

  /** strings.Cut: the texts before and after the first separator, if there is one. */
  function Cut(s: string, sep: string): Option<(string, string)> {
    var i := Index(s, sep);
    if i == -1 then None else Some((s[..i], s[i + |sep|..]))
  }

  function Join(parts: seq<string>, sep: string): string {
    if parts == [] then "" else if |parts| == 1 then parts[0] else parts[0] + sep + Join(parts[1..], sep)
  }

  lemma NoEarlier(s: string, sep: string, i: nat)
    requires i <= |s| && sep != "" && forall k :: k < i ==> !At(s, sep, k)
    ensures !Has(s[..i], sep)
  {
    assert s[..i] + s[i..] == s;
    forall k ensures !At(s[..i], sep, k) {
      if At(s[..i], sep, k) { AtLeft(s[..i], s[i..], sep, k); }
    }
  }

  /** The first separator decides the first piece. */
  lemma SplitFirst(x: string, sep: string, rest: string)
    requires sep != ""
    requires forall k :: 0 <= k < |x| ==> !At(x + sep + rest, sep, k)
    ensures Index(x + sep + rest, sep) == |x|
    ensures Split(x + sep + rest, sep) == [x] + Split(rest, sep)
  {
    var s := x + sep + rest;
    assert s[|x|..|x| + |sep|] == sep;
    FirstAt(s, sep, |x|);
    assert s[..|x|] == x && s[|x| + |sep|..] == rest;
  }

  lemma SplitNone(s: string, sep: string)
    requires sep != "" && !Has(s, sep)
    ensures Split(s, sep) == [s]
  {}

  lemma JoinCons(first: string, parts: seq<string>, sep: string)
    requires parts != []
    ensures Join([first] + parts, sep) == first + sep + Join(parts, sep)
  {
    assert ([first] + parts)[1..] == parts;
  }

  lemma SplitCons(s: string, sep: string)
    requires sep != "" && Has(s, sep)
    ensures var i := Index(s, sep);
            && s == s[..i] + sep + s[i + |sep|..]
            && Split(s, sep) == [s[..i]] + Split(s[i + |sep|..], sep)
  {
    var i := Index(s, sep);
    assert s[i..i + |sep|] == sep;
  }

  lemma {:induction false} JoinSplit(s: string, sep: string)
    requires sep != ""
    ensures Join(Split(s, sep), sep) == s
    decreases |s|
  {
    if Has(s, sep) {
      var rest := s[Index(s, sep) + |sep|..];
      SplitCons(s, sep);
      JoinSplit(rest, sep);
      JoinCons(s[..Index(s, sep)], Split(rest, sep), sep);
    } else {
      SplitNone(s, sep);
    }
  }

  /** A limited splitting loses nothing either; only its last piece can hold the separator. */
  lemma {:induction false} JoinSplitN(s: string, sep: string, n: nat)
    requires sep != "" && n >= 1
    ensures Join(SplitN(s, sep, n), sep) == s
    ensures forall i :: 0 <= i < |SplitN(s, sep, n)| - 1 ==> !Has(SplitN(s, sep, n)[i], sep)
    ensures |SplitN(s, sep, n)| < n ==> SplitN(s, sep, n) == Split(s, sep)
    decreases n
  {
    if n > 1 && Has(s, sep) {
      var i := Index(s, sep);
      var rest := s[i + |sep|..];
      SplitCons(s, sep);
      NoEarlier(s, sep, i);
      JoinSplitN(rest, sep, n - 1);
      JoinCons(s[..i], SplitN(rest, sep, n - 1), sep);
    } else if n > 1 {
      SplitNone(s, sep);
    }
  }

  /** A one-character separator is found exactly where it was put. */
  lemma SplitChar(x: string, c: char, rest: string)
    requires c !in x
    ensures Split(x + [c] + rest, [c]) == [x] + Split(rest, [c])
    ensures Index(x + [c] + rest, [c]) == |x|
  {
    forall k | 0 <= k < |x| ensures !At(x + [c] + rest, [c], k) {
      assert x[k] in x;
      NotAt(x + [c] + rest, [c], k, 0);
    }
    SplitFirst(x, [c], rest);
  }

  lemma SplitCharNone(x: string, c: char)
    requires c !in x
    ensures Split(x, [c]) == [x] && !Has(x, [c])
  {
    HasFirstChar(x, [c]);
  }

  lemma CharAbsent(s: string, c: char)
    requires !Has(s, [c])
    ensures c !in s
  {
    forall k | 0 <= k < |s| ensures s[k] != c {
      assert s[k..k + 1] == [s[k]];
      assert !At(s, [c], k);
    }
  }

  lemma CutAtChar(s: string, c: char)
    requires Has(s, [c])
    ensures var i := Index(s, [c]); i < |s| && c !in s[..i] && s == s[..i] + [c] + s[i + 1..]
  {
    var i := Index(s, [c]);
    NoEarlier(s, [c], i);
    CharAbsent(s[..i], c);
    assert s[i..i + 1] == [c];
  }

  lemma AppendAssoc(a: seq<string>, b: seq<string>, c: seq<string>)
    ensures a + (b + c) == (a + b) + c
  {}

  /** Splitting two texts joined by the separator gives the pieces of both. */
  lemma {:induction false} SplitJoined(s: string, c: char, rest: string)
    ensures Split(s + [c] + rest, [c]) == Split(s, [c]) + Split(rest, [c])
    decreases |s|
  {
    var i := Index(s, [c]);
    if i == -1 {
      CharAbsent(s, c);
      SplitChar(s, c, rest);
    } else {
      var x, tail := s[..i], s[i + 1..];
      CutAtChar(s, c);
      SplitChar(x, c, tail);
      SplitChar(x, c, tail + [c] + rest);
      Assoc(x + [c], tail, [c] + rest);
      Assoc(x + [c] + tail, [c], rest);
      Assoc(tail, [c], rest);
      SplitJoined(tail, c, rest);
      AppendAssoc([x], Split(tail, [c]), Split(rest, [c]));
    }
  }

  /** A text without the separator before another only lengthens its first piece. */
  lemma SplitPrefixed(pre: string, c: char, s: string)
    requires c !in pre
    ensures Split(pre + s, [c]) == [pre + Split(s, [c])[0]] + Split(s, [c])[1..]
  {
    if Has(s, [c]) {
      var x, tail := s[..Index(s, [c])], s[Index(s, [c]) + 1..];
      CutAtChar(s, c);
      SplitChar(x, c, tail);
      Assoc(pre, x, [c] + tail);
      Assoc(pre + x, [c], tail);
      Assoc(x, [c], tail);
      SplitChar(pre + x, c, tail);
    } else {
      CharAbsent(s, c);
      SplitCharNone(pre + s, c);
      SplitCharNone(s, c);
    }
  }

  /** The pieces of a text have no pattern the text does not have. */
  lemma {:induction false} PiecesInside(s: string, sep: string, p: string)
    requires sep != "" && !Has(s, p)
    ensures forall i :: 0 <= i < |Split(s, sep)| ==> !Has(Split(s, sep)[i], p)
    decreases |s|
  {
    if Has(s, sep) {
      var x, rest := s[..Index(s, sep)], s[Index(s, sep) + |sep|..];
      SplitCons(s, sep);
      Assoc(x, sep, rest);
      HasNotInside(x, sep + rest, p);
      HasNotInside(x + sep, rest, p);
      PiecesInside(rest, sep, p);
    } else {
      SplitNone(s, sep);
    }
  }

  lemma HasNotInside(a: string, b: string, p: string)
    requires !Has(a + b, p)
    ensures !Has(a, p) && !Has(b, p)
  {
    forall i ensures !At(a, p, i) {
      if At(a, p, i) { AtLeft(a, b, p, i); }
    }
    forall i ensures !At(b, p, i) {
      if At(b, p, i) { AtShift(a, b, p, i); }
    }
  }

  lemma {:induction false} PiecesHaveNone(s: string, c: char, p: string)
    requires c !in p && p != "" && !Has(s, p)
    ensures forall i :: 0 <= i < |Split(s, [c])| ==> !Has(Split(s, [c])[i], p)
    decreases |s|
  {
    if Has(s, [c]) {
      var x, tail := s[..Index(s, [c])], s[Index(s, [c]) + 1..];
      CutAtChar(s, c);
      HasSeparated(x, c, tail, p);
      SplitChar(x, c, tail);
      PiecesHaveNone(tail, c, p);
    }
  }

  // ----- documents with a header between dashes -----

  const DASHES := "---"

  lemma SplitAfterDashes(rest: string)
    ensures SplitN(DASHES + rest, DASHES, 3) == [""] + SplitN(rest, DASHES, 2)
  {
    var s := DASHES + rest;
    assert s[0..3] == DASHES && s[3..] == rest;
    FirstAt(s, DASHES, 0);
  }

  /** A text that starts with the dashes splits into nothing, a header and a body. */
  lemma SplitDocument(header: string, body: string)
    requires !Has(header, DASHES) && header != "" && header[|header| - 1] != '-'
    ensures SplitN(DASHES + (header + DASHES + body), DASHES, 3) == ["", header, body]
  {
    var rest := header + DASHES + body;
    SplitAfterDashes(rest);
    var n := |header|;
    assert rest[n..n + 3] == DASHES && rest[..n] == header && rest[n + 3..] == body;
    forall k | 0 <= k < n ensures !At(rest, DASHES, k) {
      if k + 3 <= n {
        if At(rest, DASHES, k) {
          Assoc(header, DASHES, body);
          AtConcat(header, DASHES + body, DASHES, k);
        }
      } else {
        assert rest[n - 1] == header[n - 1];
        NotAt(rest, DASHES, k, n - 1 - k);
      }
    }
    FirstAt(rest, DASHES, n);
    assert SplitN(rest, DASHES, 2) == [header] + SplitN(body, DASHES, 1);
    assert [""] + ([header] + [body]) == ["", header, body];
  }

  /** What trimming leaves of a text holds every one of its characters that is not white space. */
  lemma TrimKeeps(s: string, i: nat, j: nat)
    requires i <= j < |s| && !IsSpace(s[i]) && !IsSpace(s[j])
    ensures |TrimSpace(s)| >= j + 1 - i
  {
    var a, b := TrimSplit(s);
    var t := TrimSpace(s);
    assert forall k :: 0 <= k < |a| ==> s[k] == a[k];
    assert forall k :: |a| + |t| <= k < |s| ==> s[k] == b[k - |a| - |t|];
  }

  lemma DropFromLeft(a: string, b: string, k: nat)
    requires k <= |a|
    ensures (a + b)[k..] == a[k..] + b
  {}

  /** With dashes in the header the body starts inside it. */
  lemma BodyStartsEarly(header: string, tail: string) returns (x: string)
    requires Has(header, DASHES)
    ensures |SplitN(header + (DASHES + tail), DASHES, 2)| == 2
    ensures SplitN(header + (DASHES + tail), DASHES, 2)[1] == x + (DASHES + tail)
  {
    var rest := header + (DASHES + tail);
    var k :| At(header, DASHES, k);
    AtLeft(header, DASHES + tail, DASHES, k);
    var i := Index(rest, DASHES);
    assert 0 <= i <= k;
    x := header[i + 3..];
    DropFromLeft(header, DASHES + tail, i + 3);
    assert SplitN(rest[i + 3..], DASHES, 1) == [rest[i + 3..]];
  }

  /** What is then read as the body is longer than it. */
  lemma DashesInHeader(header: string, pad: string, content: string)
    requires Has(header, DASHES) && Trimmed(content)
    ensures var parts := SplitN(DASHES + (header + DASHES + (pad + content)), DASHES, 3);
            |parts| == 3 && TrimSpace(parts[2]) != content
  {
    var tail := pad + content;
    SplitAfterDashes(header + DASHES + tail);
    Assoc(header, DASHES, tail);
    var x := BodyStartsEarly(header, tail);
    Assoc(x, DASHES, tail);
    BodyGrows(x, pad, content);
  }

  lemma BodyGrows(x: string, pad: string, content: string)
    requires Trimmed(content)
    ensures |TrimSpace(x + DASHES + (pad + content))| > |content|
  {
    var s := x + DASHES + (pad + content);
    assert s[|x|] == DASHES[0] && s[|x| + 2] == DASHES[2];
    if content == "" {
      TrimKeeps(s, |x|, |x| + 2);
    } else {
      assert s[|s| - 1] == content[|content| - 1];
      TrimKeeps(s, |x|, |s| - 1);
    }
  }

  /** The dashes occur twice in the text, one occurrence after the other. */
  ghost predicate TwoDashes(text: string) {
    exists i, j :: At(text, DASHES, i) && At(text, DASHES, j) && i + 3 <= j
  }

  lemma AtInRest(text: string, n: nat, j: int)
    requires n <= |text|
    ensures n <= j && At(text, DASHES, j) ==> At(text[n..], DASHES, j - n)
    ensures 0 <= j && At(text[n..], DASHES, j) ==> At(text, DASHES, n + j)
  {
    assert text == text[..n] + text[n..];
    if n <= j && At(text, DASHES, j) { AtConcat(text[..n], text[n..], DASHES, j); }
    if 0 <= j && At(text[n..], DASHES, j) { AtShift(text[..n], text[n..], DASHES, j); }
  }

  /** A text is split in three at its dashes exactly when they occur twice: before, between and after. */
  lemma SplitAtDashes(text: string)
    ensures |SplitN(text, DASHES, 3)| == 3 <==> TwoDashes(text)
  {
    var i := Index(text, DASHES);
    if i != -1 {
      var rest := text[i + 3..];
      var j := Index(rest, DASHES);
      if j != -1 {
        AtInRest(text, i + 3, j);
        assert At(text, DASHES, i + 3 + j);
      }
      if k, l :| At(text, DASHES, k) && At(text, DASHES, l) && k + 3 <= l {
        AtInRest(text, i + 3, l);
      }
    }
  }
}
