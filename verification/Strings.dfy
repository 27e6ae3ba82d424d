/** The parts of Go's strings and bufio packages the parsers rely on. */
module Strings {

  /** unicode.IsSpace. */
  predicate IsSpace(c: char) {
    c in {'\t', '\n', '\U{b}', '\U{c}', '\r', ' ', '\U{85}', '\U{a0}', '\U{1680}',
          '\U{2028}', '\U{2029}', '\U{202f}', '\U{205f}', '\U{3000}'}
    || '\U{2000}' <= c <= '\U{200a}'
  }

  predicate NoSpace(s: string) {
    forall c :: c in s ==> !IsSpace(c)
  }

  predicate AllSpace(s: string) {
    forall c :: c in s ==> IsSpace(c)
  }

  /** strings.Contains. */
  predicate Contains(s: string, sub: string) {
    sub <= s || (s != [] && Contains(s[1..], sub))
  }

  /** strings.Split by a one-character separator. */
  function Split(s: string, sep: char): (parts: seq<string>)
    ensures |parts| > 0
  {
    if s == [] then [[]]
    else
      var rest := Split(s[1..], sep);
      if s[0] == sep then [[]] + rest else [[s[0]] + rest[0]] + rest[1..]
  }

  /** strings.Join. */
  function Join(parts: seq<string>, sep: string): string {
    if parts == [] then []
    else if |parts| == 1 then parts[0]
    else parts[0] + sep + Join(parts[1..], sep)
  }

  /** strings.Fields. */
  function Fields(s: string): (fields: seq<string>)
    ensures s != [] && !IsSpace(s[0]) ==> fields != []
  {
    if s == [] then []
    else if IsSpace(s[0]) then Fields(s[1..])
    else if |s| == 1 || IsSpace(s[1]) then [[s[0]]] + Fields(s[1..])
    else
      var rest := Fields(s[1..]);
      [[s[0]] + rest[0]] + rest[1..]
  }

  function TrimLeft(s: string): string {
    if s != [] && IsSpace(s[0]) then TrimLeft(s[1..]) else s
  }

  function TrimRight(s: string): string {
    if s != [] && IsSpace(s[|s| - 1]) then TrimRight(s[..|s| - 1]) else s
  }

  /** strings.TrimSpace. */
  function TrimSpace(s: string): string {
    TrimRight(TrimLeft(s))
  }

  function DropCR(line: string): string {
    if line != [] && line[|line| - 1] == '\r' then line[..|line| - 1] else line
  }

  function DropCRs(lines: seq<string>): (r: seq<string>)
    ensures |r| == |lines| && forall i :: 0 <= i < |r| ==> r[i] == DropCR(lines[i])
  {
    if lines == [] then [] else [DropCR(lines[0])] + DropCRs(lines[1..])
  }

  /** The lines a bufio.Scanner yields: no empty line after a final newline, no trailing CR. */
  function ScanLines(text: string): seq<string> {
    var parts := Split(text, '\n');
    DropCRs(if parts[|parts| - 1] == [] then parts[..|parts| - 1] else parts)
  }

  // ---------- splitting and joining ----------

  lemma {:induction false} SplitWithout(s: string, sep: char)
    requires sep !in s
    ensures Split(s, sep) == [s]
  {
    if s != [] {
      SplitWithout(s[1..], sep);
      assert s == [s[0]] + s[1..];
    }
  }

  lemma {:induction false} SplitConcat(s: string, sep: char, t: string)
    requires sep !in s
    ensures Split(s + [sep] + t, sep) == [s] + Split(t, sep)
  {
    var all := s + [sep] + t;
    if s == [] {
      assert all[1..] == t;
    } else {
      assert all[1..] == s[1..] + [sep] + t;
      SplitConcat(s[1..], sep, t);
      assert s == [s[0]] + s[1..];
    }
  }

  /** Splitting undoes joining pieces that do not hold the separator. */
  lemma {:induction false} SplitJoin(parts: seq<string>, sep: char)
    requires parts != [] && forall p :: p in parts ==> sep !in p
    ensures Split(Join(parts, [sep]), sep) == parts
  {
    hide Split;
    assert parts[0] in parts;
    if |parts| == 1 {
      SplitWithout(parts[0], sep);
    } else {
      SplitJoin(parts[1..], sep);
      SplitConcat(parts[0], sep, Join(parts[1..], [sep]));
      assert parts == [parts[0]] + parts[1..];
    }
  }

  /** Joining undoes splitting. */
  lemma {:induction false} JoinSplit(s: string, sep: char)
    ensures Join(Split(s, sep), [sep]) == s
  {
    if s != [] {
      JoinSplit(s[1..], sep);
      var rest := Split(s[1..], sep);
      if s[0] == sep {
        assert ([[]] + rest)[1..] == rest;
        assert [sep] + s[1..] == s;
      } else {
        assert ([[s[0]] + rest[0]] + rest[1..])[1..] == rest[1..];
      }
    }
  }

  lemma {:induction false} SplitOneExactly(s: string, sep: char)
    ensures |Split(s, sep)| == 1 <==> sep !in s
  {
    if s != [] {
      SplitOneExactly(s[1..], sep);
      assert s == [s[0]] + s[1..];
    }
  }

  /** A piece occurs at some position. */
  lemma {:induction false} ContainsAt(s: string, sub: string) returns (i: nat)
    requires Contains(s, sub)
    ensures i + |sub| <= |s| && s[i..i + |sub|] == sub
  {
    if sub <= s {
      i := 0;
    } else {
      var j := ContainsAt(s[1..], sub);
      i := j + 1;
      assert s[i..i + |sub|] == s[1..][j..j + |sub|];
    }
  }

  lemma SplitThree(a: string, b: string, c: string, sep: char)
    requires sep !in a && sep !in b && sep !in c
    ensures Split(a + [sep] + b + [sep] + c, sep) == [a, b, c]
  {
    hide Split;
    assert a + [sep] + b + [sep] + c == a + [sep] + (b + [sep] + c);
    SplitConcat(a, sep, b + [sep] + c);
    SplitConcat(b, sep, c);
    SplitWithout(c, sep);
  }

  lemma {:induction false} ContainsFirst(s: string, sub: string)
    requires sub != [] && Contains(s, sub)
    ensures sub[0] in s
  {
    if !(sub <= s) {
      ContainsFirst(s[1..], sub);
    }
  }

  predicate IsToken(s: string) {
    s != [] && NoSpace(s)
  }

  /** A space between two texts separates their fields. */
  lemma {:induction false} FieldsConcat(s: string, space: char, t: string)
    requires IsSpace(space)
    ensures Fields(s + [space] + t) == Fields(s) + Fields(t)
  {
    var all := s + [space] + t;
    if s == [] {
      assert all[1..] == t;
    } else {
      assert all[1..] == s[1..] + [space] + t;
      FieldsConcat(s[1..], space, t);
      if |s| > 1 {
        assert all[1] == s[1];
      } else {
        assert s[1..] == [] && all[1] == space;
      }
    }
  }

  /** Any blank of ASCII separates, and no printed character does. */
  lemma BlanksSeparate(s: string, blank: char, t: string)
    requires blank in "\t\n\r " || '\U{9}' <= blank <= '\U{d}'
    ensures Fields(s + [blank] + t) == Fields(s) + Fields(t)
    ensures forall c :: '!' <= c <= '~' ==> !IsSpace(c)
  {
    FieldsConcat(s, blank, t);
  }

  lemma {:induction false} FieldsOfToken(token: string)
    requires IsToken(token)
    ensures Fields(token) == [token]
  {
    assert token[0] in token && token == [token[0]] + token[1..];
    if |token| > 1 {
      assert token[1] in token && !IsSpace(token[1]);
      FieldsOfToken(token[1..]);
      assert Fields(token) == [[token[0]] + token[1..]] + [token[1..]][1..];
    } else {
      assert token == [token[0]] && token[1..] == [] && Fields(token) == [[token[0]]] + Fields([]);
    }
  }

  /** strings.Fields undoes joining tokens with single spaces. */
  lemma {:induction false} FieldsJoin(tokens: seq<string>)
    requires forall t :: t in tokens ==> IsToken(t)
    ensures Fields(Join(tokens, " ")) == tokens
  {
    if tokens != [] {
      assert tokens[0] in tokens;
      FieldsOfToken(tokens[0]);
      if |tokens| > 1 {
        FieldsJoin(tokens[1..]);
        FieldsConcat(tokens[0], ' ', Join(tokens[1..], " "));
      }
    }
  }

  /** Text in front takes no field away. */
  lemma {:induction false} FieldsOfSuffix(s: string, t: string)
    ensures |Fields(s + t)| >= |Fields(t)|
  {
    if s == [] {
      assert s + t == t;
    } else {
      assert (s + t)[1..] == s[1..] + t;
      FieldsOfSuffix(s[1..], t);
    }
  }

  // ---------- a newline-free substring lies within one line ----------

  lemma {:induction false} PrefixWithinFirstPart(s: string, sep: char, sub: string)
    requires sep !in sub
    ensures sub <= s <==> sub <= Split(s, sep)[0]
  {
    if s != [] && sub != [] && s[0] == sub[0] {
      PrefixWithinFirstPart(s[1..], sep, sub[1..]);
    }
  }

  predicate AnyContains(parts: seq<string>, sub: string) {
    parts != [] && (Contains(parts[0], sub) || AnyContains(parts[1..], sub))
  }

  lemma {:induction false} AnyContainsExists(parts: seq<string>, sub: string)
    ensures AnyContains(parts, sub) <==> exists p :: p in parts && Contains(p, sub)
  {
    if parts != [] {
      AnyContainsExists(parts[1..], sub);
      assert parts[0] in parts;
      if p :| p in parts[1..] && Contains(p, sub) {
        assert p in parts;
      }
      if p :| p in parts && Contains(p, sub) {
        assert p == parts[0] || p in parts[1..];
      }
    }
  }

  /** A text contains a piece without separators exactly when one of its parts does. */
  lemma {:induction false} ContainsWithinParts(s: string, sep: char, sub: string)
    requires sub != [] && sep !in sub
    ensures Contains(s, sub) <==> AnyContains(Split(s, sep), sub)
  {
    if s != [] {
      var parts, rest := Split(s, sep), Split(s[1..], sep);
      ContainsWithinParts(s[1..], sep, sub);
      PrefixWithinFirstPart(s, sep, sub);
      if s[0] == sep {
        assert parts[1..] == rest;
      } else {
        assert parts[1..] == rest[1..] && parts[0][1..] == rest[0];
      }
    }
  }

  /** Dropping a last character that sub does not use does not hide sub. */
  lemma {:induction false} ContainsInit(s: string, sub: string)
    requires s != [] && sub != [] && s[|s| - 1] !in sub
    ensures Contains(s, sub) <==> Contains(s[..|s| - 1], sub)
  {
    var init := s[..|s| - 1];
    assert s[|s| - 1] in s;
    assert sub != s;
    assert sub <= s <==> sub <= init;
    if |s| > 1 {
      assert s[1..][..|s| - 2] == init[1..];
      ContainsInit(s[1..], sub);
    }
  }

  lemma {:induction false} AnyContainsDropCRs(lines: seq<string>, sub: string)
    requires sub != [] && '\r' !in sub
    ensures AnyContains(DropCRs(lines), sub) <==> AnyContains(lines, sub)
  {
    if lines != [] {
      AnyContainsDropCRs(lines[1..], sub);
      assert DropCRs(lines)[1..] == DropCRs(lines[1..]);
      if DropCR(lines[0]) != lines[0] {
        ContainsInit(lines[0], sub);
      }
    }
  }

  lemma {:induction false} AnyContainsDropsEmpty(lines: seq<string>, sub: string)
    requires sub != [] && lines != [] && lines[|lines| - 1] == []
    ensures AnyContains(lines[..|lines| - 1], sub) <==> AnyContains(lines, sub)
  {
    if |lines| > 1 {
      AnyContainsDropsEmpty(lines[1..], sub);
      assert lines[..|lines| - 1][1..] == lines[1..][..|lines| - 2];
    }
  }

  /** What a scanned line contains, the text contains, and the other way round. */
  lemma ContainsWithinLines(text: string, sub: string)
    requires sub != [] && '\n' !in sub && '\r' !in sub
    ensures Contains(text, sub) <==> AnyContains(ScanLines(text), sub)
  {
    ContainsWithinParts(text, '\n', sub);
    var parts := Split(text, '\n');
    if parts[|parts| - 1] == [] {
      AnyContainsDropsEmpty(parts, sub);
      AnyContainsDropCRs(parts[..|parts| - 1], sub);
    } else {
      AnyContainsDropCRs(parts, sub);
    }
  }

  lemma {:induction false} TrimLeftBlank(blank: string, s: string)
    requires AllSpace(blank) && s != "" && !IsSpace(s[0])
    ensures TrimLeft(blank + s) == s
  {
    if blank == "" {
      assert blank + s == s;
    } else {
      assert blank[0] in blank && (blank + s)[1..] == blank[1..] + s;
      TrimLeftBlank(blank[1..], s);
    }
  }

  lemma {:induction false} TrimRightBlank(s: string, blank: string)
    requires AllSpace(blank) && s != "" && !IsSpace(s[|s| - 1])
    ensures TrimRight(s + blank) == s
  {
    if blank == "" {
      assert s + blank == s;
    } else {
      var all, init := s + blank, blank[..|blank| - 1];
      assert blank[|blank| - 1] in blank && all[..|all| - 1] == s + init;
      assert forall c :: c in init ==> c in blank;
      TrimRightBlank(s, init);
    }
  }

  /** Trimming takes the blanks off both ends and nothing else. */
  lemma TrimsBlanks(before: string, s: string, after: string)
    requires AllSpace(before) && AllSpace(after)
    requires s != "" && !IsSpace(s[0]) && !IsSpace(s[|s| - 1])
    ensures TrimSpace(before + s + after) == s
  {
    assert before + s + after == before + (s + after);
    TrimLeftBlank(before, s + after);
    TrimRightBlank(s, after);
  }

  // ---------- printing lines ----------

  function FileOf(lines: seq<string>): string {
    if lines == [] then "" else lines[0] + "\n" + FileOf(lines[1..])
  }

  predicate IsLine(line: string) {
    '\n' !in line && DropCR(line) == line
  }

  lemma {:induction false} SplitFile(lines: seq<string>)
    requires forall l :: l in lines ==> IsLine(l)
    ensures Split(FileOf(lines), '\n') == lines + [[]]
  {
    if lines != [] {
      assert lines[0] in lines;
      SplitFile(lines[1..]);
      SplitConcat(lines[0], '\n', FileOf(lines[1..]));
      assert lines == [lines[0]] + lines[1..];
    }
  }

  /** Scanning a file gives back the lines it was written from. */
  lemma ScanFile(lines: seq<string>)
    requires forall l :: l in lines ==> IsLine(l)
    ensures ScanLines(FileOf(lines)) == lines
  {
    SplitFile(lines);
    assert (lines + [[]])[..|lines|] == lines;
    forall i | 0 <= i < |lines|
      ensures DropCR(lines[i]) == lines[i]
    {
      assert lines[i] in lines;
    }
    assert DropCRs(lines) == lines;
  }

  lemma {:induction false} FileIsJoined(lines: seq<string>)
    requires lines != []
    ensures FileOf(lines) == Join(lines, "\n") + "\n"
  {
    if |lines| > 1 {
      FileIsJoined(lines[1..]);
    } else {
      assert lines[1..] == [];
    }
  }

  lemma {:induction false} JoinedEnds(lines: seq<string>)
    requires lines != [] && forall l :: l in lines ==> l != "" && !IsSpace(l[0]) && !IsSpace(l[|l| - 1])
    ensures var s := Join(lines, "\n");
      s != "" && !IsSpace(s[0]) && !IsSpace(s[|s| - 1])
  {
    assert lines[0] in lines;
    if |lines| > 1 {
      JoinedEnds(lines[1..]);
    }
  }

  /** A file of lines without blanks at their ends trims to those lines. */
  lemma TrimmedFile(lines: seq<string>)
    requires lines != []
    requires forall l :: l in lines ==> '\n' !in l && l != "" && !IsSpace(l[0]) && !IsSpace(l[|l| - 1])
    ensures Split(TrimSpace(FileOf(lines)), '\n') == lines
  {
    hide Split;
    hide TrimSpace;
    FileIsJoined(lines);
    JoinedEnds(lines);
    TrimsBlanks("", Join(lines, "\n"), "\n");
    assert "" + Join(lines, "\n") + "\n" == FileOf(lines);
    SplitJoin(lines, '\n');
  }

  lemma {:induction false} SplitUnfinished(lines: seq<string>, last: string)
    requires '\n' !in last && forall l :: l in lines ==> '\n' !in l
    ensures Split(FileOf(lines) + last, '\n') == lines + [last]
  {
    if lines == [] {
      assert FileOf(lines) + last == last;
      SplitWithout(last, '\n');
    } else {
      assert lines[0] in lines;
      SplitUnfinished(lines[1..], last);
      assert FileOf(lines) + last == lines[0] + ['\n'] + (FileOf(lines[1..]) + last);
      SplitConcat(lines[0], '\n', FileOf(lines[1..]) + last);
      assert lines == [lines[0]] + lines[1..];
    }
  }

  /** A last line without a newline is scanned too. */
  lemma ScanUnfinished(lines: seq<string>, last: string)
    requires last != "" && IsLine(last) && forall l :: l in lines ==> IsLine(l)
    ensures ScanLines(FileOf(lines) + last) == lines + [last]
  {
    SplitUnfinished(lines, last);
    forall i | 0 <= i < |lines + [last]|
      ensures DropCR((lines + [last])[i]) == (lines + [last])[i]
    {
      assert i < |lines| ==> lines[i] in lines;
    }
  }

  function WithCR(lines: seq<string>): (r: seq<string>)
    ensures |r| == |lines| && forall i :: 0 <= i < |r| ==> r[i] == lines[i] + "\r"
  {
    if lines == [] then [] else [lines[0] + "\r"] + WithCR(lines[1..])
  }

  /** Lines may end in a carriage return and a newline. */
  lemma ScanCRLF(lines: seq<string>)
    requires forall l :: l in lines ==> '\n' !in l
    ensures ScanLines(FileOf(WithCR(lines))) == lines
  {
    var ended := WithCR(lines);
    forall i | 0 <= i < |lines|
      ensures '\n' !in ended[i] && DropCR(ended[i]) == lines[i]
    {
      assert lines[i] in lines;
    }
    SplitUnfinished(ended, "");
    assert FileOf(ended) + "" == FileOf(ended);
    assert (ended + [""])[..|ended|] == ended;
    assert DropCRs(ended) == lines;
  }

  /** A joined list of tokens is one trimmed line. */
  lemma {:induction false} JoinedTokensAreLine(tokens: seq<string>)
    requires tokens != [] && forall t :: t in tokens ==> IsToken(t)
    ensures var line := Join(tokens, " ");
      && line != [] && !IsSpace(line[0]) && !IsSpace(line[|line| - 1])
      && IsLine(line) && TrimSpace(line) == line
  {
    var line := Join(tokens, " ");
    assert tokens[0] in tokens && tokens[0][0] in tokens[0];
    if |tokens| == 1 {
      assert line[|line| - 1] in tokens[0];
    } else {
      JoinedTokensAreLine(tokens[1..]);
      var rest := Join(tokens[1..], " ");
      assert line[|line| - 1] == rest[|rest| - 1];
    }
    assert TrimLeft(line) == line;
  }

  // ---------- blank parts ----------

  function NonBlank(parts: seq<string>): nat {
    if parts == [] then 0 else (if AllSpace(parts[0]) then 0 else 1) + NonBlank(parts[1..])
  }

  lemma AllSpaceCons(c: char, s: string)
    ensures AllSpace([c] + s) <==> IsSpace(c) && AllSpace(s)
    ensures AllSpace(s + [c]) <==> IsSpace(c) && AllSpace(s)
  {
    if AllSpace([c] + s) {
      assert c in [c] + s;
      assert forall d :: d in s ==> d in [c] + s;
    }
    if AllSpace(s + [c]) {
      assert c in s + [c];
      assert forall d :: d in s ==> d in s + [c];
    }
  }

  /** Leading space makes no part non-blank. */
  lemma {:induction false} NonBlankTrimLeft(s: string, sep: char)
    requires IsSpace(sep)
    ensures NonBlank(Split(TrimLeft(s), sep)) == NonBlank(Split(s, sep))
  {
    if s != [] && IsSpace(s[0]) {
      NonBlankTrimLeft(s[1..], sep);
      var rest, parts := Split(s[1..], sep), Split(s, sep);
      if s[0] == sep {
        assert parts[1..] == rest;
      } else {
        AllSpaceCons(s[0], rest[0]);
        assert parts[1..] == rest[1..];
      }
    }
  }

  /** The parts after one more character at the end. */
  function Extend(parts: seq<string>, c: char, sep: char): (r: seq<string>)
    requires parts != []
    ensures r != []
  {
    if c == sep then parts + [[]] else parts[..|parts| - 1] + [parts[|parts| - 1] + [c]]
  }

  lemma ExtendTail(first: string, parts: seq<string>, c: char, sep: char)
    requires parts != []
    ensures Extend([first] + parts, c, sep) == [first] + Extend(parts, c, sep)
  {
  }

  lemma ExtendHead(x: char, parts: seq<string>, c: char, sep: char)
    requires parts != []
    ensures Extend([[x] + parts[0]] + parts[1..], c, sep)
      == [[x] + Extend(parts, c, sep)[0]] + Extend(parts, c, sep)[1..]
  {
    if |parts| == 1 && c != sep {
      assert [x] + (parts[0] + [c]) == ([x] + parts[0]) + [c];
      assert Extend(parts, c, sep) == [parts[0] + [c]];
    } else if |parts| > 1 {
      assert parts == [parts[0]] + parts[1..];
      ExtendTail([x] + parts[0], parts[1..], c, sep);
      ExtendTail(parts[0], parts[1..], c, sep);
    }
  }

  lemma {:induction false} SplitSnoc(s: string, c: char, sep: char)
    ensures Split(s + [c], sep) == Extend(Split(s, sep), c, sep)
  {
    hide Extend;
    var all := s + [c];
    if s == [] {
      assert all == [c];
      SplitOne(c, sep);
    } else {
      assert all[1..] == s[1..] + [c];
      SplitSnoc(s[1..], c, sep);
      ExtendTail([], Split(s[1..], sep), c, sep);
      ExtendHead(s[0], Split(s[1..], sep), c, sep);
    }
  }

  lemma SplitOne(c: char, sep: char)
    ensures Split([c], sep) == Extend(Split([], sep), c, sep)
  {
    assert [c][1..] == [];
    assert Split([], sep) == [[]];
    var none: string := [];
    assert none + [c] == [c] && [c] + none == [c];
    assert Extend([none], c, sep) == if c == sep then [none, none] else [[c]];
  }

  lemma {:induction false} NonBlankSnoc(init: seq<string>, last: string)
    ensures NonBlank(init + [last]) == NonBlank(init) + if AllSpace(last) then 0 else 1
  {
    if init == [] {
      assert init + [last] == [last];
    } else {
      assert (init + [last])[1..] == init[1..] + [last];
      NonBlankSnoc(init[1..], last);
    }
  }

  /** Nor does trailing space. */
  lemma {:induction false} NonBlankTrimRight(s: string, sep: char)
    requires IsSpace(sep)
    ensures NonBlank(Split(TrimRight(s), sep)) == NonBlank(Split(s, sep))
  {
    if s != [] && IsSpace(s[|s| - 1]) {
      var init, c := s[..|s| - 1], s[|s| - 1];
      NonBlankTrimRight(init, sep);
      assert s == init + [c];
      SplitSnoc(init, c, sep);
      NonBlankExtend(Split(init, sep), c, sep);
    }
  }

  lemma NonBlankExtend(parts: seq<string>, c: char, sep: char)
    requires parts != [] && IsSpace(c)
    ensures NonBlank(Extend(parts, c, sep)) == NonBlank(parts)
  {
    var head, last := parts[..|parts| - 1], parts[|parts| - 1];
    assert parts == head + [last];
    NonBlankSnoc(head, last);
    NonBlankSnoc(parts, []);
    NonBlankSnoc(head, last + [c]);
    AllSpaceCons(c, last);
  }

  lemma {:induction false} BlankContainsNothing(s: string, sub: string)
    requires AllSpace(s) && sub != [] && !IsSpace(sub[0])
    ensures !Contains(s, sub)
  {
    if s != [] {
      assert s[0] in s;
      assert forall c :: c in s[1..] ==> c in s;
      BlankContainsNothing(s[1..], sub);
    }
  }

  lemma {:induction false} BlankPartsContainNothing(parts: seq<string>, sub: string)
    requires NonBlank(parts) == 0 && sub != [] && !IsSpace(sub[0])
    ensures !AnyContains(parts, sub) && forall p :: p in parts ==> AllSpace(p)
  {
    if parts != [] {
      BlankContainsNothing(parts[0], sub);
      BlankPartsContainNothing(parts[1..], sub);
      assert parts == [parts[0]] + parts[1..];
    }
  }

  /** With at most one non-blank part, a piece found in some part is in every non-blank one. */
  lemma {:induction false} OnlyNonBlankPart(parts: seq<string>, sub: string)
    requires NonBlank(parts) <= 1 && AnyContains(parts, sub) && sub != [] && !IsSpace(sub[0])
    ensures forall p :: p in parts ==> AllSpace(p) || Contains(p, sub)
  {
    assert parts == [parts[0]] + parts[1..];
    if AllSpace(parts[0]) {
      BlankContainsNothing(parts[0], sub);
      OnlyNonBlankPart(parts[1..], sub);
    } else {
      BlankPartsContainNothing(parts[1..], sub);
    }
  }

  /** When the trimmed text is a single line, every scanned line is blank or holds whatever
      space-free piece the text holds. */
  lemma SingleLineHolds(text: string, sub: string)
    requires |Split(TrimSpace(text), '\n')| == 1 && Contains(text, sub)
    requires IsToken(sub)
    ensures forall l :: l in ScanLines(text) ==> AllSpace(l) || Contains(l, sub)
  {
    assert sub[0] in sub;
    var parts, trimmed := Split(text, '\n'), Split(TrimSpace(text), '\n');
    NonBlankTrimRight(TrimLeft(text), '\n');
    NonBlankTrimLeft(text, '\n');
    assert trimmed[1..] == [];
    assert NonBlank(parts) <= 1;
    ContainsWithinParts(text, '\n', sub);
    OnlyNonBlankPart(parts, sub);
    forall l | l in ScanLines(text)
      ensures AllSpace(l) || Contains(l, sub)
    {
      var i :| 0 <= i < |ScanLines(text)| && ScanLines(text)[i] == l;
      LineOfPart(parts[i], sub);
    }
  }

  lemma LineOfPart(part: string, sub: string)
    requires IsToken(sub) && (AllSpace(part) || Contains(part, sub))
    ensures AllSpace(DropCR(part)) || Contains(DropCR(part), sub)
  {
    if DropCR(part) != part {
      if AllSpace(part) {
        assert forall c :: c in DropCR(part) ==> c in part;
      } else {
        ContainsInit(part, sub);
      }
    }
  }
}
