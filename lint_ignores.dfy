/**
  The linter-ignore audit: which lines of a Python file count as code, which
  carry a suppression directive, the per-file and project totals, and the walk
  that finds the Python files of a project.
 */
module LintIgnores {
  import opened Wrappers
  import opened Strings
  import opened Tree

  // ---------------------------------------------------------------------------
  // IGNORE_PATTERN: a newline-free prefix, `#`, whitespace, then one of the directive words
  // ---------------------------------------------------------------------------

  /** The alternative `type:\s*ignore` matches at index `j`. */
  ghost predicate TypeIgnoreAt(s: string, j: int)
  {
    OccursAt(s, j, "type:") &&
    exists m :: j + 5 <= m <= |s| && AllSpace(s[j + 5..m]) && OccursAt(s, m, "ignore")
  }

  /** One alternative of the directive group matches at index `j`. */
  ghost predicate DirectiveAt(s: string, j: int)
  {
    || OccursAt(s, j, "noqa:")
    || OccursAt(s, j, "pylint:")
    || TypeIgnoreAt(s, j)
    || OccursAt(s, j, "nosec")
    || OccursAt(s, j, "mypy:")
    || OccursAt(s, j, "pragma:")
  }

  /** A whole match: `s[..i]` is what `(.+)?` consumed (no newline, since `.` does not
      match one), `s[i]` is the `#`, `s[i+1..j]` is the `\s*`, and a directive starts at `j`. */
  ghost predicate MatchAt(s: string, i: int, j: int)
  {
    0 <= i < j <= |s| && '\n' !in s[..i] && s[i] == '#' && AllSpace(s[i + 1..j]) && DirectiveAt(s, j)
  }

  /** `IGNORE_PATTERN.match(s)` succeeds. The match is anchored at the start and
      need not reach the end, so it is enough that some decomposition exists. */
  ghost predicate IgnorePattern(s: string)
  {
    exists i, j :: MatchAt(s, i, j)
  }

  /** The index just past the run of whitespace that starts at `k`. */
  function SkipSpaces(s: string, k: nat): (r: nat)
    requires k <= |s|
    ensures k <= r <= |s|
    ensures AllSpace(s[k..r])
    ensures r < |s| ==> !IsSpace(s[r])
    decreases |s| - k
  {
    if k < |s| && IsSpace(s[k]) then
      var r := SkipSpaces(s, k + 1);
      assert forall x :: k + 1 <= x < r ==> s[x] == s[k + 1..r][x - k - 1];
      assert forall x :: k <= x < r ==> s[x] == s[k..r][x - k];
      r
    else k
  }

  /** The directive group, tried at index `j`, where whitespace has already been skipped. */
  function DirectiveMatch(s: string, j: nat): bool
    requires j <= |s|
  {
    || OccursAt(s, j, "noqa:")
    || OccursAt(s, j, "pylint:")
    || (OccursAt(s, j, "type:") && OccursAt(s, SkipSpaces(s, j + 5), "ignore"))
    || OccursAt(s, j, "nosec")
    || OccursAt(s, j, "mypy:")
    || OccursAt(s, j, "pragma:")
  }

  /** Tries every `#` from index `i` onwards, stopping at the first newline. */
  function MatchFrom(s: string, i: nat): bool
    decreases |s| - i
  {
    if i >= |s| || s[i] == '\n' then false
    else (s[i] == '#' && DirectiveMatch(s, SkipSpaces(s, i + 1))) || MatchFrom(s, i + 1)
  }

  /** The scanner that decides `IGNORE_PATTERN.match`. */
  function MatchesIgnore(s: string): bool
  {
    MatchFrom(s, 0)
  }

  /** A run of whitespace followed by a non-space (or the end) is the one SkipSpaces finds. */
  lemma SkipSpacesUnique(s: string, k: nat, j: nat)
    requires k <= j <= |s| && AllSpace(s[k..j]) && (j < |s| ==> !IsSpace(s[j]))
    ensures SkipSpaces(s, k) == j
  {
    var r := SkipSpaces(s, k);
    assert forall x :: k <= x < r ==> s[x] == s[k..r][x - k];
    assert forall x :: k <= x < j ==> s[x] == s[k..j][x - k];
  }

  lemma DirectiveNotSpace(s: string, j: int)
    requires DirectiveAt(s, j)
    ensures 0 <= j < |s| && !IsSpace(s[j])
  {
    if OccursAt(s, j, "noqa:") { OccursAtFirst(s, j, "noqa:"); }
    else if OccursAt(s, j, "pylint:") { OccursAtFirst(s, j, "pylint:"); }
    else if OccursAt(s, j, "type:") { OccursAtFirst(s, j, "type:"); }
    else if OccursAt(s, j, "nosec") { OccursAtFirst(s, j, "nosec"); }
    else if OccursAt(s, j, "mypy:") { OccursAtFirst(s, j, "mypy:"); }
    else { OccursAtFirst(s, j, "pragma:"); }
  }

  /** The `type:\s*ignore` alternative is decided by skipping the whitespace greedily. */
  lemma TypeIgnoreMatch(s: string, j: nat)
    requires j <= |s|
    ensures TypeIgnoreAt(s, j) <==> OccursAt(s, j, "type:") && OccursAt(s, SkipSpaces(s, j + 5), "ignore")
  {
    if OccursAt(s, j, "type:") {
      var r := SkipSpaces(s, j + 5);
      if OccursAt(s, r, "ignore") {
        assert j + 5 <= r <= |s| && AllSpace(s[j + 5..r]);
      }
      forall m | j + 5 <= m <= |s| && AllSpace(s[j + 5..m]) && OccursAt(s, m, "ignore")
        ensures m == r
      {
        OccursAtFirst(s, m, "ignore");
        SkipSpacesUnique(s, j + 5, m);
      }
    }
  }

  /** Skipping whitespace greedily loses no match of the directive group. */
  lemma DirectiveMatchCorrect(s: string, k: nat)
    requires k <= |s|
    ensures DirectiveMatch(s, SkipSpaces(s, k)) <==>
            exists j :: k <= j <= |s| && AllSpace(s[k..j]) && DirectiveAt(s, j)
  {
    var r := SkipSpaces(s, k);
    TypeIgnoreMatch(s, r);
    forall j | k <= j <= |s| && AllSpace(s[k..j]) && DirectiveAt(s, j)
      ensures j == r
    {
      DirectiveNotSpace(s, j);
      SkipSpacesUnique(s, k, j);
    }
  }

  /** The scanner's test at index `i` finds exactly the matches whose `#` is at `i`. */
  lemma MatchHere(s: string, i: nat)
    requires i < |s| && '\n' !in s[..i]
    ensures (s[i] == '#' && DirectiveMatch(s, SkipSpaces(s, i + 1))) <==> exists j :: MatchAt(s, i, j)
  {
    DirectiveMatchCorrect(s, i + 1);
    if s[i] == '#' && DirectiveMatch(s, SkipSpaces(s, i + 1)) {
      var j :| i + 1 <= j <= |s| && AllSpace(s[i + 1..j]) && DirectiveAt(s, j);
      assert MatchAt(s, i, j);
    }
    if exists j :: MatchAt(s, i, j) {
      var j :| MatchAt(s, i, j);
      assert i + 1 <= j <= |s| && AllSpace(s[i + 1..j]) && DirectiveAt(s, j);
    }
  }

  /** The scanner from index `i` finds exactly the matches whose `#` is at `i` or later. */
  lemma {:induction false} MatchFromCorrect(s: string, i: nat)
    requires i <= |s| && '\n' !in s[..i]
    ensures MatchFrom(s, i) <==> exists h, j :: i <= h && MatchAt(s, h, j)
    decreases |s| - i
  {
    if i == |s| {
    } else if s[i] == '\n' {
      forall h, j | i <= h ensures !MatchAt(s, h, j) {
        if i < h < |s| { assert s[..h][i] == '\n'; }
      }
    } else {
      assert s[..i + 1] == s[..i] + [s[i]];
      MatchFromCorrect(s, i + 1);
      MatchHere(s, i);
      var here := exists j :: MatchAt(s, i, j);
      var later := exists h, j :: i + 1 <= h && MatchAt(s, h, j);
      assert (exists h, j :: i <= h && MatchAt(s, h, j)) <==> here || later;
    }
  }

  /** The scanner decides the pattern. */
  lemma MatchesIgnoreCorrect(s: string)
    ensures MatchesIgnore(s) <==> IgnorePattern(s)
  {
    MatchFromCorrect(s, 0);
  }

  /** No `#`, no match. */
  lemma NoHashNoMatch(s: string)
    requires forall k :: 0 <= k < |s| ==> s[k] != '#'
    ensures !IgnorePattern(s)
  {
  }

  // ---------------------------------------------------------------------------
  // IgnoreLinesInFile.parse_line
  // ---------------------------------------------------------------------------

  /** parse_line returns early on the stripped line: `line in ("", "\n")`. */
  predicate Skipped(t: string)
  {
    t == "" || t == "\n"
  }

  /** parse_line adds one to total_lines: the stripped line is not skipped and does not start with `#`. */
  predicate CountsAsCode(line: string)
  {
    var t := Strip(line);
    !Skipped(t) && !StartsWith(t, "#")
  }

  /** parse_line adds one to total_ignores: the stripped line is not skipped and IGNORE_PATTERN matches it. */
  ghost predicate CountsAsIgnore(line: string)
  {
    var t := Strip(line);
    !Skipped(t) && IgnorePattern(t)
  }

  /** An empty or whitespace-only line counts neither as code nor as an ignore. */
  lemma BlankLineCountsNothing(line: string)
    requires AllSpace(line)
    ensures !CountsAsCode(line) && !CountsAsIgnore(line)
  {
    StripBlank(line);
  }

  /** A line whose first non-blank character is `#` is never counted as code. */
  lemma CommentLineIsNotCode(indent: string, rest: string)
    requires AllSpace(indent) && rest != [] && rest[0] == '#'
    ensures !CountsAsCode(indent + rest)
  {
    var s := indent + rest;
    LeadingSpacesOf(indent, rest);
    var t := s[|indent|..];
    assert t == rest;
    var n := TrailingSpaces(t);
    assert forall k :: |t| - n <= k < |t| ==> t[k] == t[|t| - n..][k - (|t| - n)];
    assert Strip(s) == t[..|t| - n];
    assert Strip(s)[0] == '#';
  }

  /** The spellings of a directive after `#` and blanks that the test suite uses. */
  const DirectiveWords: set<string> :=
    {"noqa:", "pylint:", "type:ignore", "type: ignore", "nosec", "mypy:", "pragma:"}

  lemma DirectiveWordAt(s: string, j: nat, word: string)
    requires word in DirectiveWords && OccursAt(s, j, word)
    ensures DirectiveAt(s, j)
  {
    if word == "type: ignore" {
      SliceOfOccurrence(s, j, word, 0, 5);
      SliceOfOccurrence(s, j, word, 5, 6);
      SliceOfOccurrence(s, j, word, 6, 12);
      assert word[0..5] == "type:" && word[5..6] == " " && word[6..12] == "ignore";
      assert AllSpace(s[j + 5..j + 6]) && OccursAt(s, j + 6, "ignore");
    } else if word == "type:ignore" {
      SliceOfOccurrence(s, j, word, 0, 5);
      SliceOfOccurrence(s, j, word, 5, 11);
      assert word[0..5] == "type:" && word[5..11] == "ignore";
      assert AllSpace(s[j + 5..j + 5]) && OccursAt(s, j + 5, "ignore");
    }
  }

  /** Code without a newline, then `#`, blanks and a directive: the pattern matches, whatever follows. */
  lemma DirectiveComment(code: string, gap: string, word: string, rest: string)
    requires AllSpace(gap) && word in DirectiveWords && '\n' !in code
    ensures IgnorePattern(code + "#" + gap + word + rest)
  {
    var core := code + "#" + gap + word + rest;
    var i, j := |code|, |code| + 1 + |gap|;
    assert core[..i] == code && core[i] == '#';
    assert core[i + 1..j] == gap;
    assert core[j..j + |word|] == word;
    DirectiveWordAt(core, j, word);
    assert MatchAt(core, i, j);
  }

  /** The same, for a directive that ends the line. */
  lemma DirectiveCommentAtEnd(code: string, gap: string, word: string)
    requires AllSpace(gap) && word in DirectiveWords && '\n' !in code
    ensures IgnorePattern(code + "#" + gap + word)
  {
    DirectiveComment(code, gap, word, "");
    assert code + "#" + gap + word + "" == code + "#" + gap + word;
  }

  /** No alternative of the directive group starts at a character other than n, p, t and m. */
  lemma NoDirectiveAt(s: string, j: nat)
    requires j < |s| && s[j] != 'n' && s[j] != 'p' && s[j] != 't' && s[j] != 'm'
    ensures !DirectiveMatch(s, j)
  {
    NotOccursAt(s, j, "noqa:");
    NotOccursAt(s, j, "pylint:");
    NotOccursAt(s, j, "type:");
    NotOccursAt(s, j, "nosec");
    NotOccursAt(s, j, "mypy:");
    NotOccursAt(s, j, "pragma:");
  }

  /** The scanner finds nothing from index `i` on when no `#` comes before the next newline or the end. */
  lemma {:induction false} NoHashFrom(s: string, i: nat)
    requires forall k :: i <= k < |s| ==> s[k] != '#'
    ensures !MatchFrom(s, i)
    decreases |s| - i
  {
    if i < |s| && s[i] != '\n' {
      NoHashFrom(s, i + 1);
    }
  }

  /** A comment whose first word cannot begin a directive, and that holds no other `#`, does not match. */
  lemma CommentWithoutDirective(gap: string, text: string)
    requires AllSpace(gap) && text != [] && !IsSpace(text[0])
    requires text[0] != 'n' && text[0] != 'p' && text[0] != 't' && text[0] != 'm'
    requires forall k :: 0 <= k < |text| ==> text[k] != '#'
    ensures !IgnorePattern("#" + gap + text)
  {
    var s := "#" + gap + text;
    var j := 1 + |gap|;
    assert s[1..j] == gap && s[j] == text[0];
    assert forall k :: 1 <= k < |s| ==> s[k] != '#' by {
      assert forall k :: 1 <= k < j ==> s[k] == gap[k - 1];
      assert forall k :: j <= k < |s| ==> s[k] == text[k - j];
    }
    SkipSpacesUnique(s, 1, j);
    NoDirectiveAt(s, j);
    NoHashFrom(s, 1);
    MatchesIgnoreCorrect(s);
  }

  /** A line is classified by its text `core` between the indentation and the newline. */
  lemma StrippedLine(indent: string, core: string)
    requires AllSpace(indent) && core != [] && !IsSpace(core[0]) && !IsSpace(core[|core| - 1])
    ensures CountsAsIgnore(indent + core + "\n") <==> IgnorePattern(core)
    ensures CountsAsCode(indent + core + "\n") <==> core[0] != '#'
  {
    StripSurrounded(indent, core, "\n");
  }

  /** A line of code (or of nothing) followed by `#`, blanks, a directive and more text
      counts as an ignore, and as code exactly when there is code before the `#`. */
  lemma DirectiveLine(code: string, gap: string, word: string, rest: string)
    requires AllSpace(gap) && word in DirectiveWords && '\n' !in code
    requires code == [] || (!IsSpace(code[0]) && code[0] != '#')
    requires rest != [] && !IsSpace(rest[|rest| - 1])
    ensures CountsAsIgnore(code + "#" + gap + word + rest + "\n")
    ensures CountsAsCode(code + "#" + gap + word + rest + "\n") <==> code != []
  {
    var core := code + "#" + gap + word + rest;
    DirectiveComment(code, gap, word, rest);
    assert core[0] == (if code == [] then '#' else code[0]);
    assert core[|core| - 1] == rest[|rest| - 1];
    StrippedLine("", core);
    assert "" + core + "\n" == core + "\n";
  }

  /** The same, for a directive that ends the line. */
  lemma DirectiveLineAtEnd(code: string, gap: string, word: string)
    requires AllSpace(gap) && word in DirectiveWords && '\n' !in code
    requires code == [] || (!IsSpace(code[0]) && code[0] != '#')
    requires !IsSpace(word[|word| - 1])
    ensures CountsAsIgnore(code + "#" + gap + word + "\n")
    ensures CountsAsCode(code + "#" + gap + word + "\n") <==> code != []
  {
    var core := code + "#" + gap + word;
    DirectiveCommentAtEnd(code, gap, word);
    assert core[0] == (if code == [] then '#' else code[0]);
    assert core[|core| - 1] == word[|word| - 1];
    StrippedLine("", core);
    assert "" + core + "\n" == core + "\n";
  }

  // The suppression comments of the test suite, each written as the code before the `#`,
  // the `#`, the blank, the directive and the rest of the line: each counts as one ignore.

  lemma TypeIgnoreLine()
    ensures CountsAsIgnore("def main():    " + "#" + " " + "type: ignore" + "\n")
  {
    DirectiveLineAtEnd("def main():    ", " ", "type: ignore");
  }

  lemma NoqaLine()
    ensures CountsAsIgnore("import foo  " + "#" + " " + "noqa:" + " foo" + "\n")
  {
    DirectiveLine("import foo  ", " ", "noqa:", " foo");
  }

  lemma MypyLine()
    ensures CountsAsIgnore("import foo  " + "#" + " " + "mypy:" + " disable-error-code=\"empty-body\"" + "\n")
  {
    DirectiveLine("import foo  ", " ", "mypy:", " disable-error-code=\"empty-body\"");
  }

  lemma PylintLine()
    ensures CountsAsIgnore("import foo  " + "#" + " " + "pylint:" + " disable=no-member" + "\n")
  {
    DirectiveLine("import foo  ", " ", "pylint:", " disable=no-member");
  }

  lemma PylintCommentLine()
    ensures CountsAsIgnore("" + "#" + " " + "pylint:" + " disable=no-member" + "\n")
    ensures !CountsAsCode("" + "#" + " " + "pylint:" + " disable=no-member" + "\n")
  {
    DirectiveLine("", " ", "pylint:", " disable=no-member");
  }

  lemma NosecLine()
    ensures CountsAsIgnore("import foo  " + "#" + " " + "nosec" + " B602, B607" + "\n")
  {
    DirectiveLine("import foo  ", " ", "nosec", " B602, B607");
  }

  lemma PragmaLine()
    ensures CountsAsIgnore("import foo  " + "#" + " " + "pragma:" + " no cover" + "\n")
  {
    DirectiveLine("import foo  ", " ", "pragma:", " no cover");
  }

  /** A comment-only line of the test suite counts neither as code nor as an ignore. */
  lemma PlainCommentLine()
    ensures !CountsAsCode("#" + " " + "some comment" + "\n") && !CountsAsIgnore("#" + " " + "some comment" + "\n")
  {
    CommentWithoutDirective(" ", "some comment");
    StrippedLine("", "#" + " " + "some comment");
  }

  // The blank lines of the test suite count neither as code nor as ignores.

  lemma EmptyTestLine()
    ensures !CountsAsCode(EmptyLine) && !CountsAsIgnore(EmptyLine)
  {
    BlankLineCountsNothing("\n");
  }

  lemma IndentedTestLine()
    ensures !CountsAsCode("    \n") && !CountsAsIgnore("    \n")
  {
    var indented := "    \n";
    forall k | 0 <= k < |indented| ensures IsSpace(indented[k]) {
      assert indented[k] == ' ' || indented[k] == '\n';
    }
    BlankLineCountsNothing(indented);
  }

  lemma SpaceTestLine()
    ensures !CountsAsCode(" ") && !CountsAsIgnore(" ")
  {
    BlankLineCountsNothing(" ");
  }

  /** The two counters are independent: an indented code line with a directive raises both. */
  lemma CodeLineWithDirectiveCountsTwice()
    ensures CountsAsCode(ExitIgnored) && CountsAsIgnore(ExitIgnored)
  {
    DirectiveCommentAtEnd("sys.exit(0)    ", " ", "type: ignore");
    StrippedLine("    ", "sys.exit(0)    " + "#" + " " + "type: ignore");
  }

  // ---------------------------------------------------------------------------
  // Reading a file line by line (from_file)
  // ---------------------------------------------------------------------------

  /** The length of what `readline()` returns at the start of `s`: everything up to and
      including the first newline, or all of `s` when there is none. */
  function LineLength(s: string): (n: nat)
    ensures n <= |s| && (s != [] ==> 0 < n)
    ensures forall k :: 0 <= k < n - 1 ==> s[k] != '\n'
    ensures n < |s| ==> s[n - 1] == '\n'
  {
    if s == [] then 0
    else if s[0] == '\n' then 1
    else 1 + LineLength(s[1..])
  }

  /** What `f.readline()` returns when `pos` characters of the text `content` have been read. */
  function ReadLine(content: string, pos: nat): (line: string)
    requires pos <= |content|
    ensures pos + |line| <= |content| && line == content[pos..pos + |line|]
    ensures line == "" <==> pos == |content|
  {
    content[pos..pos + LineLength(content[pos..])]
  }

  /** The successive lines that `readline()` returns on `content`, up to the end of the file. */
  function ReadLines(content: string): seq<string>
    decreases |content|
  {
    if content == [] then []
    else
      var n := LineLength(content);
      [content[..n]] + ReadLines(content[n..])
  }

  function Concat(lines: seq<string>): string
  {
    if lines == [] then "" else lines[0] + Concat(lines[1..])
  }

  /** Reading the lines and writing them one after the other gives back the text. */
  lemma {:induction false} ReadLinesGiveBack(content: string)
    ensures Concat(ReadLines(content)) == content
    decreases |content|
  {
    if content != [] {
      var n := LineLength(content);
      var rest := ReadLines(content[n..]);
      ReadLinesGiveBack(content[n..]);
      assert ReadLines(content) == [content[..n]] + rest;
      assert ([content[..n]] + rest)[1..] == rest;
      assert content == content[..n] + content[n..];
    }
  }

  /** No line read is empty, only a line's last character can be a newline, and every line
      but the last ends with one. */
  lemma {:induction false} ReadLinesAreLines(content: string)
    ensures forall k :: 0 <= k < |ReadLines(content)| ==> ReadLines(content)[k] != ""
    ensures forall k, c :: 0 <= k < |ReadLines(content)| && 0 <= c < |ReadLines(content)[k]| - 1 ==>
              ReadLines(content)[k][c] != '\n'
    ensures forall k :: 0 <= k < |ReadLines(content)| - 1 ==>
              ReadLines(content)[k][|ReadLines(content)[k]| - 1] == '\n'
    decreases |content|
  {
    if content != [] {
      var n := LineLength(content);
      var rest := ReadLines(content[n..]);
      ReadLinesAreLines(content[n..]);
      var all := ReadLines(content);
      assert all == [content[..n]] + rest;
      assert forall k :: 1 <= k < |all| ==> all[k] == rest[k - 1];
      if rest != [] {
        assert n < |content|;
        assert all[0][n - 1] == content[n - 1];
      }
    }
  }

  /** The line readline() returns first when the text starts with a complete line. */
  lemma {:induction false} LineLengthOf(line: string, rest: string)
    requires line != [] && line[|line| - 1] == '\n'
    requires forall k :: 0 <= k < |line| - 1 ==> line[k] != '\n'
    ensures LineLength(line + rest) == |line|
  {
    if |line| > 1 {
      assert (line + rest)[1..] == line[1..] + rest;
      LineLengthOf(line[1..], rest);
    }
  }

  /** A complete line: it ends with its only newline. */
  predicate IsLine(line: string)
  {
    line != [] && line[|line| - 1] == '\n' && forall k :: 0 <= k < |line| - 1 ==> line[k] != '\n'
  }

  lemma ReadLinesCons(line: string, rest: string)
    requires IsLine(line)
    ensures ReadLines(line + rest) == [line] + ReadLines(rest)
  {
    LineLengthOf(line, rest);
    assert (line + rest)[..|line|] == line && (line + rest)[|line|..] == rest;
  }

  /** Writing complete lines one after the other and reading them back gives the same lines. */
  lemma {:induction false} ReadLinesConcat(lines: seq<string>)
    requires forall k :: 0 <= k < |lines| ==> IsLine(lines[k])
    ensures ReadLines(Concat(lines)) == lines
  {
    if lines != [] {
      ReadLinesConcat(lines[1..]);
      ReadLinesCons(lines[0], Concat(lines[1..]));
    }
  }

  /** A line of text without a newline, written with its newline, is a complete line. */
  lemma TextLine(text: string)
    requires '\n' !in text
    ensures IsLine(text + "\n")
  {
    assert forall k :: 0 <= k < |text| ==> (text + "\n")[k] == text[k];
  }

  /** Code without a `#`, indented by `indent`, counts as code and not as an ignore. */
  lemma CodeWithoutHash(indent: string, code: string)
    requires AllSpace(indent) && code != [] && !IsSpace(code[0]) && !IsSpace(code[|code| - 1])
    requires forall k :: 0 <= k < |code| ==> code[k] != '#'
    ensures CountsAsCode(indent + code + "\n") && !CountsAsIgnore(indent + code + "\n")
  {
    StrippedLine(indent, code);
    NoHashNoMatch(code);
  }

  // The lines the test suite's fixture writes to its Python file.
  const ImportSys := "import sys" + "\n"
  const ImportOs := "import os" + "\n"
  const EmptyLine := "\n"
  const DefMain := "def main():" + "\n"
  const PrintHello := "    " + "print('Hello World!')" + "\n"
  const ExitIgnored := "    " + ("sys.exit(0)    " + "#" + " " + "type: ignore") + "\n"

  const FixtureLines: seq<string> :=
    [ImportSys, ImportOs, EmptyLine, EmptyLine, DefMain, PrintHello, ExitIgnored]

  /** Every line of the fixture is complete, so reading the file gives them back. */
  lemma FixtureRead()
    ensures ReadLines(Concat(FixtureLines)) == FixtureLines
  {
    TextLine("import sys");
    TextLine("import os");
    TextLine("");
    TextLine("def main():");
    TextLine("    " + "print('Hello World!')");
    TextLine("    " + ("sys.exit(0)    " + "#" + " " + "type: ignore"));
    ReadLinesConcat(FixtureLines);
  }

  /** The code count of a line followed by others is its count plus theirs. */
  lemma CodeCons(line: string, rest: seq<string>)
    ensures CodeLines([line] + rest) == (if CountsAsCode(line) then 1 else 0) + CodeLines(rest)
  {
    assert ([line] + rest)[0] == line && ([line] + rest)[1..] == rest;
  }

  /** The ignore count of a line followed by others is its count plus theirs. */
  lemma IgnoreCons(line: string, rest: seq<string>)
    ensures IgnoreLines([line] + rest) == (if CountsAsIgnore(line) then 1 else 0) + IgnoreLines(rest)
  {
    assert ([line] + rest)[0] == line && ([line] + rest)[1..] == rest;
  }

  /** The code count of the lines from index `i` on is that of line `i` plus that of the rest. */
  lemma CodeFrom(ls: seq<string>, i: nat)
    requires i < |ls|
    ensures CodeLines(ls[i..]) == (if CountsAsCode(ls[i]) then 1 else 0) + CodeLines(ls[i + 1..])
  {
    assert ls[i..][1..] == ls[i + 1..];
  }

  /** The ignore count of the lines from index `i` on is that of line `i` plus that of the rest. */
  lemma IgnoreFrom(ls: seq<string>, i: nat)
    requires i < |ls|
    ensures IgnoreLines(ls[i..]) == (if CountsAsIgnore(ls[i]) then 1 else 0) + IgnoreLines(ls[i + 1..])
  {
    assert ls[i..][1..] == ls[i + 1..];
  }

  /** Seven lines of which all but the third and fourth are code, counted from the last back. */
  lemma CodeOfFixtureShape(ls: seq<string>)
    requires |ls| == 7
    requires CountsAsCode(ls[0]) && CountsAsCode(ls[1]) && !CountsAsCode(ls[2]) && !CountsAsCode(ls[3])
    requires CountsAsCode(ls[4]) && CountsAsCode(ls[5]) && CountsAsCode(ls[6])
    ensures CodeLines(ls) == 5
  {
    assert ls[7..] == [];
    CodeFrom(ls, 6);
    CodeFrom(ls, 5);
    CodeFrom(ls, 4);
    CodeFrom(ls, 3);
    CodeFrom(ls, 2);
    CodeFrom(ls, 1);
    CodeFrom(ls, 0);
    assert ls[0..] == ls;
  }

  /** Seven lines of which only the last is an ignore, counted from the last back. */
  lemma IgnoreOfFixtureShape(ls: seq<string>)
    requires |ls| == 7
    requires !CountsAsIgnore(ls[0]) && !CountsAsIgnore(ls[1]) && !CountsAsIgnore(ls[2]) && !CountsAsIgnore(ls[3])
    requires !CountsAsIgnore(ls[4]) && !CountsAsIgnore(ls[5]) && CountsAsIgnore(ls[6])
    ensures IgnoreLines(ls) == 1
  {
    assert ls[7..] == [];
    IgnoreFrom(ls, 6);
    IgnoreFrom(ls, 5);
    IgnoreFrom(ls, 4);
    IgnoreFrom(ls, 3);
    IgnoreFrom(ls, 2);
    IgnoreFrom(ls, 1);
    IgnoreFrom(ls, 0);
    assert ls[0..] == ls;
  }

  // How each line of the fixture counts.

  lemma FixtureLine0()
    ensures CountsAsCode(ImportSys) && !CountsAsIgnore(ImportSys)
  {
    CodeWithoutHash("", "import sys");
  }

  lemma FixtureLine1()
    ensures CountsAsCode(ImportOs) && !CountsAsIgnore(ImportOs)
  {
    CodeWithoutHash("", "import os");
  }

  lemma FixtureLine4()
    ensures CountsAsCode(DefMain) && !CountsAsIgnore(DefMain)
  {
    CodeWithoutHash("", "def main():");
  }

  lemma FixtureLine5()
    ensures CountsAsCode(PrintHello) && !CountsAsIgnore(PrintHello)
  {
    CodeWithoutHash("    ", "print('Hello World!')");
  }

  /** The fixture file has five lines of code and one ignore, read back line by line. */
  lemma FixtureCounts()
    ensures CodeLines(ReadLines(Concat(FixtureLines))) == 5
    ensures IgnoreLines(ReadLines(Concat(FixtureLines))) == 1
  {
    FixtureRead();
    FixtureLine0();
    FixtureLine1();
    EmptyTestLine();
    FixtureLine4();
    FixtureLine5();
    CodeLineWithDirectiveCountsTwice();
    CodeOfFixtureShape(FixtureLines);
    IgnoreOfFixtureShape(FixtureLines);
  }

  /** One readline() call takes the first of the remaining lines. */
  lemma ReadLinesStep(content: string, pos: nat, line: string)
    requires pos < |content| && line == ReadLine(content, pos)
    ensures ReadLines(content[pos..]) == [line] + ReadLines(content[pos + |line|..])
  {
    var t := content[pos..];
    var n := LineLength(t);
    assert t != [] && |line| == n;
    assert line == t[..n];
    assert t[n..] == content[pos + n..];
  }

  /** One readline() call moves the counts of the remaining lines past the line it returns. */
  lemma ReadLineCounts(content: string, pos: nat, line: string)
    requires pos < |content| && line == ReadLine(content, pos)
    ensures CodeLines(ReadLines(content[pos..]))
      == (if CountsAsCode(line) then 1 else 0) + CodeLines(ReadLines(content[pos + |line|..]))
    ensures IgnoreLines(ReadLines(content[pos..]))
      == (if CountsAsIgnore(line) then 1 else 0) + IgnoreLines(ReadLines(content[pos + |line|..]))
  {
    ReadLinesStep(content, pos, line);
    CodeCons(line, ReadLines(content[pos + |line|..]));
    IgnoreCons(line, ReadLines(content[pos + |line|..]));
  }

  /** The number of lines of `lines` that parse_line counts as code. */
  function CodeLines(lines: seq<string>): nat
  {
    if lines == [] then 0 else (if CountsAsCode(lines[0]) then 1 else 0) + CodeLines(lines[1..])
  }

  /** The number of lines of `lines` that parse_line counts as ignores. */
  ghost function IgnoreLines(lines: seq<string>): nat
  {
    if lines == [] then 0 else (if CountsAsIgnore(lines[0]) then 1 else 0) + IgnoreLines(lines[1..])
  }

  // ---------------------------------------------------------------------------
  // IgnoreLinesInFile
  // ---------------------------------------------------------------------------

  /** Why set_root fails: there is no root (None has no `resolve`), or the file is not below it. */
  datatype RootError = NoRoot | NotBelowRoot

  /** Why python_files fails: iterdir() on something that is not a directory. */
  datatype ScanError = NotADirectory

  /** The counts of one file. */
  class IgnoreLinesInFile {
    var file: Path
    var totalLines: int
    var totalIgnores: int

    constructor (file: Path, totalLines: int, totalIgnores: int)
      ensures this.file == file && this.totalLines == totalLines && this.totalIgnores == totalIgnores
    {
      this.file := file;
      this.totalLines := totalLines;
      this.totalIgnores := totalIgnores;
    }

    /** parse_line: each counter goes up by one exactly when the line counts for it. */
    method ParseLine(line: string)
      modifies this
      ensures file == old(file)
      ensures totalLines == old(totalLines) + (if CountsAsCode(line) then 1 else 0)
      ensures totalIgnores == old(totalIgnores) + (if CountsAsIgnore(line) then 1 else 0)
    {
      var t := Strip(line);
      if t == "" || t == "\n" {
        return;
      }
      if !StartsWith(t, "#") {
        totalLines := totalLines + 1;
      }
      MatchesIgnoreCorrect(t);
      if MatchesIgnore(t) {
        totalIgnores := totalIgnores + 1;
      }
    }

    /** set_root: the path becomes relative to `root`. With no root, `root_path.resolve()` fails
        (an AttributeError on None); a path outside the root makes `relative_to` fail (a ValueError).
        Paths are taken as already resolved. */
    method SetRoot(root: Option<Path>) returns (err: Option<RootError>)
      modifies this
      ensures totalLines == old(totalLines) && totalIgnores == old(totalIgnores)
      ensures root.None? ==> err == Some(NoRoot) && file == old(file)
      ensures root.Some? && RelativeTo(old(file), root.value).None? ==> err == Some(NotBelowRoot) && file == old(file)
      ensures root.Some? && RelativeTo(old(file), root.value).Some? ==>
        err == None && file == RelativeTo(old(file), root.value).value
    {
      if root.None? {
        return Some(NoRoot);
      }
      var rel := RelativeTo(file, root.value);
      if rel.None? {
        return Some(NotBelowRoot);
      }
      file := rel.value;
      return None;
    }

    /** The `readline()` loop of from_file: every line of the text `content` goes through
        parse_line, until readline() returns "". */
    method ReadAll(content: string)
      modifies this
      ensures file == old(file)
      ensures totalLines == old(totalLines) + CodeLines(ReadLines(content))
      ensures totalIgnores == old(totalIgnores) + IgnoreLines(ReadLines(content))
    {
      var pos := 0;
      while true
        invariant pos <= |content|
        invariant file == old(file)
        invariant totalLines + CodeLines(ReadLines(content[pos..])) == old(totalLines) + CodeLines(ReadLines(content))
        invariant totalIgnores + IgnoreLines(ReadLines(content[pos..])) == old(totalIgnores) + IgnoreLines(ReadLines(content))
        decreases |content| - pos
      {
        var line := ReadLine(content, pos);
        if line == "" {
          break;
        }
        pos := ParseNextLine(content, pos);
      }
    }

    /** One turn of the `readline()` loop: parse_line on the line that starts at `pos`. */
    method ParseNextLine(content: string, pos: nat) returns (next: nat)
      requires pos < |content|
      modifies this
      ensures pos < next <= |content|
      ensures file == old(file)
      ensures totalLines + CodeLines(ReadLines(content[next..])) == old(totalLines) + CodeLines(ReadLines(content[pos..]))
      ensures totalIgnores + IgnoreLines(ReadLines(content[next..])) == old(totalIgnores) + IgnoreLines(ReadLines(content[pos..]))
    {
      var line := ReadLine(content, pos);
      ReadLineCounts(content, pos, line);
      ParseLine(line);
      next := pos + |line|;
    }

    /** from_file, as written: a fresh record for `file`, made relative to `root` by set_root
        (which fails without a root), whose counters have seen every line of the file's text. */
    static method FromFile(file: Path, root: Option<Path>, content: string)
      returns (r: Result<IgnoreLinesInFile, RootError>)
      ensures root.None? ==> r == Failure(NoRoot)
      ensures root.Some? && RelativeTo(file, root.value).None? ==> r == Failure(NotBelowRoot)
      ensures root.Some? && RelativeTo(file, root.value).Some? ==>
        && r.Success? && fresh(r.value)
        && r.value.file == RelativeTo(file, root.value).value
        && r.value.totalLines == CodeLines(ReadLines(content))
        && r.value.totalIgnores == IgnoreLines(ReadLines(content))
    {
      var stat := new IgnoreLinesInFile(file, 0, 0);
      var err := stat.SetRoot(root);
      if err.Some? {
        return Failure(err.value);
      }
      stat.ReadAll(content);
      return Success(stat);
    }

    /** from_file as its default argument and its test intend it: without a root the path is kept. */
    static method FromFileOptionalRoot(file: Path, root: Option<Path>, content: string)
      returns (r: Result<IgnoreLinesInFile, RootError>)
      ensures root.Some? && RelativeTo(file, root.value).None? ==> r == Failure(NotBelowRoot)
      ensures root.None? || RelativeTo(file, root.value).Some? ==>
        && r.Success? && fresh(r.value)
        && r.value.file == (if root.None? then file else RelativeTo(file, root.value).value)
        && r.value.totalLines == CodeLines(ReadLines(content))
        && r.value.totalIgnores == IgnoreLines(ReadLines(content))
    {
      var stat := new IgnoreLinesInFile(file, 0, 0);
      if root.Some? {
        var err := stat.SetRoot(root);
        if err.Some? {
          return Failure(err.value);
        }
      }
      stat.ReadAll(content);
      return Success(stat);
    }
  }

  /** The test of from_file on the fixture, as the code is written: with no root it fails. */
  method FixtureWithoutRoot() returns (r: Result<IgnoreLinesInFile, RootError>)
    ensures r == Failure(NoRoot)
  {
    r := IgnoreLinesInFile.FromFile(["tmp", "root.py"], None, Concat(FixtureLines));
  }

  /** The same test against the corrected from_file: five lines of code, one ignore, the path kept. */
  method FixtureFromFile() returns (file: Path, lines: int, ignores: int)
    ensures file == ["tmp", "root.py"] && lines == 5 && ignores == 1
  {
    FixtureCounts();
    var r := IgnoreLinesInFile.FromFileOptionalRoot(["tmp", "root.py"], None, Concat(FixtureLines));
    file, lines, ignores := r.value.file, r.value.totalLines, r.value.totalIgnores;
  }

  // ---------------------------------------------------------------------------
  // IgnoreLinesStat
  // ---------------------------------------------------------------------------

  /** The sum of the code-line counts of the records. */
  ghost function SumLines(records: seq<IgnoreLinesInFile>): int
    reads records
  {
    if records == [] then 0 else SumLines(records[..|records| - 1]) + records[|records| - 1].totalLines
  }

  /** The sum of the ignore counts of the records. */
  ghost function SumIgnores(records: seq<IgnoreLinesInFile>): int
    reads records
  {
    if records == [] then 0 else SumIgnores(records[..|records| - 1]) + records[|records| - 1].totalIgnores
  }

  lemma SumsAppend(records: seq<IgnoreLinesInFile>, r: IgnoreLinesInFile)
    ensures SumLines(records + [r]) == SumLines(records) + r.totalLines
    ensures SumIgnores(records + [r]) == SumIgnores(records) + r.totalIgnores
  {
    assert (records + [r])[..|records|] == records;
  }

  /** The project totals and the per-file records. */
  class IgnoreLinesStat {
    var totalLines: int
    var totalIgnores: int
    var ignoreByFile: seq<IgnoreLinesInFile>

    /** The totals are the sums over the records. */
    ghost predicate Valid()
      reads this, ignoreByFile
    {
      totalLines == SumLines(ignoreByFile) && totalIgnores == SumIgnores(ignoreByFile)
    }

    constructor ()
      ensures totalLines == 0 && totalIgnores == 0 && ignoreByFile == []
      ensures Valid()
    {
      totalLines := 0;
      totalIgnores := 0;
      ignoreByFile := [];
    }

    /** add_ignores, as written: the guard asks whether the record's Path is among the records
        themselves, which a Path never equals, so the record is always appended and counted. */
    method AddIgnores(fileStat: IgnoreLinesInFile)
      modifies this
      ensures ignoreByFile == old(ignoreByFile) + [fileStat]
      ensures totalLines == old(totalLines) + fileStat.totalLines
      ensures totalIgnores == old(totalIgnores) + fileStat.totalIgnores
      ensures old(Valid()) ==> Valid()
    {
      SumsAppend(ignoreByFile, fileStat);
      ignoreByFile := ignoreByFile + [fileStat];
      totalLines := totalLines + fileStat.totalLines;
      totalIgnores := totalIgnores + fileStat.totalIgnores;
    }

    /** add_ignores as its guard intends: a record for a file that is already recorded is not
        added again, so the records never name one file twice. */
    method AddIgnoresOnce(fileStat: IgnoreLinesInFile)
      modifies this
      ensures Recorded(old(ignoreByFile), fileStat.file) ==>
        ignoreByFile == old(ignoreByFile) && totalLines == old(totalLines) && totalIgnores == old(totalIgnores)
      ensures !Recorded(old(ignoreByFile), fileStat.file) ==>
        && ignoreByFile == old(ignoreByFile) + [fileStat]
        && totalLines == old(totalLines) + fileStat.totalLines
        && totalIgnores == old(totalIgnores) + fileStat.totalIgnores
      ensures old(Valid()) ==> Valid()
      ensures old(DistinctFiles()) ==> DistinctFiles()
    {
      if !Recorded(ignoreByFile, fileStat.file) {
        AddIgnores(fileStat);
      }
    }

    /** No two records name the same file. */
    ghost predicate DistinctFiles()
      reads this, ignoreByFile
    {
      forall i, j :: 0 <= i < j < |ignoreByFile| ==> ignoreByFile[i].file != ignoreByFile[j].file
    }

    /** One step of parse_project_folder: the record from_file gives for `file`, added. */
    method AddFile(file: Path, path: Path, content: string) returns (rec: IgnoreLinesInFile)
      requires RelativeTo(file, path).Some?
      modifies this
      ensures fresh(rec) && RecordOf(rec, file, path, content)
      ensures ignoreByFile == old(ignoreByFile) + [rec]
      ensures old(Valid()) ==> Valid()
    {
      var r := IgnoreLinesInFile.FromFileOptionalRoot(file, Some(path), content);
      rec := r.value;
      AddIgnores(rec);
    }

    /** The turn of parse_project_folder's loop that adds the record of `files[i]`. */
    method AddNext(dir: Entry, path: Path, files: seq<Path>, i: nat, ghost n: nat, contentOf: Path -> string)
      requires PythonFiles(dir, path) == Some(files) && i < |files|
      requires |ignoreByFile| == n + i
      requires forall k :: 0 <= k < i ==> RecordOf(ignoreByFile[n + k], files[k], path, contentOf(files[k]))
      modifies this
      ensures |ignoreByFile| == n + i + 1 && ignoreByFile[..n + i] == old(ignoreByFile)
      ensures forall k :: 0 <= k < i + 1 ==> RecordOf(ignoreByFile[n + k], files[k], path, contentOf(files[k]))
      ensures old(Valid()) ==> Valid()
    {
      var file := files[i];
      FoundBelow(dir, path, file);
      var rec := AddFile(file, path, contentOf(file));
      forall k | 0 <= k < i + 1
        ensures RecordOf(ignoreByFile[n + k], files[k], path, contentOf(files[k]))
      {
        if k < i {
          assert ignoreByFile[n + k] == old(ignoreByFile)[n + k];
        }
      }
    }

    /** parse_project_folder: a record for every file python_files yields, in that order, made
        relative to the folder and read from its text `contentOf(file)`, then added. When the
        folder is not a directory, iterdir() fails before anything is added. */
    method ParseProjectFolder(path: Path, dir: Entry, contentOf: Path -> string) returns (err: Option<ScanError>)
      modifies this
      ensures !dir.isDir ==>
        err == Some(NotADirectory) && ignoreByFile == old(ignoreByFile) &&
        totalLines == old(totalLines) && totalIgnores == old(totalIgnores)
      ensures dir.isDir ==> err == None
      ensures dir.isDir ==> |ignoreByFile| == |old(ignoreByFile)| + |PythonFiles(dir, path).value|
      ensures dir.isDir ==> ignoreByFile[..|old(ignoreByFile)|] == old(ignoreByFile)
      ensures dir.isDir ==> forall k :: 0 <= k < |PythonFiles(dir, path).value| ==>
        RecordOf(ignoreByFile[|old(ignoreByFile)| + k], PythonFiles(dir, path).value[k], path,
                 contentOf(PythonFiles(dir, path).value[k]))
      ensures old(Valid()) ==> Valid()
    {
      var found := PythonFiles(dir, path);
      if found.None? {
        return Some(NotADirectory);
      }
      AddAll(dir, path, found.value, contentOf);
      return None;
    }

    /** The loop of parse_project_folder over the files python_files yields. */
    method AddAll(dir: Entry, path: Path, files: seq<Path>, contentOf: Path -> string)
      requires PythonFiles(dir, path) == Some(files)
      modifies this
      ensures |ignoreByFile| == |old(ignoreByFile)| + |files|
      ensures ignoreByFile[..|old(ignoreByFile)|] == old(ignoreByFile)
      ensures forall k :: 0 <= k < |files| ==>
        RecordOf(ignoreByFile[|old(ignoreByFile)| + k], files[k], path, contentOf(files[k]))
      ensures old(Valid()) ==> Valid()
    {
      ghost var n := |ignoreByFile|;
      var i := 0;
      while i < |files|
        invariant 0 <= i <= |files|
        invariant |ignoreByFile| == n + i
        invariant ignoreByFile[..n] == old(ignoreByFile)
        invariant forall k :: 0 <= k < i ==>
             RecordOf(ignoreByFile[n + k], files[k], path, contentOf(files[k]))
        invariant old(Valid()) ==> Valid()
      {
        ghost var before := ignoreByFile;
        AddNext(dir, path, files, i, n, contentOf);
        assert ignoreByFile[..n] == before[..n];
        i := i + 1;
      }
    }
  }

  /** Some record names `file`: what the guard of add_ignores means to ask. */
  predicate Recorded(records: seq<IgnoreLinesInFile>, file: Path)
    reads records
  {
    exists k :: 0 <= k < |records| && records[k].file == file
  }

  /** The record `r` is what from_file gives for `file` below the folder `path` with text `content`. */
  ghost predicate RecordOf(r: IgnoreLinesInFile, file: Path, path: Path, content: string)
    reads r
  {
    && RelativeTo(file, path) == Some(r.file)
    && r.totalLines == CodeLines(ReadLines(content))
    && r.totalIgnores == IgnoreLines(ReadLines(content))
  }

  /** test_add_ignores: records of 10 lines and 1 ignore, then 15 and 2, give 25 and 3. */
  method AddIgnoresExample() returns (lines: int, ignores: int, files: nat)
    ensures lines == 25 && ignores == 3 && files == 2
  {
    var stat := new IgnoreLinesStat();
    var foo := new IgnoreLinesInFile(["foo"], 10, 1);
    var baz := new IgnoreLinesInFile(["baz"], 15, 2);
    stat.AddIgnores(foo);
    stat.AddIgnores(baz);
    lines, ignores, files := stat.totalLines, stat.totalIgnores, |stat.ignoreByFile|;
  }

  /** As written, adding the record of the same file twice counts it twice. */
  method DuplicateCountedTwice() returns (lines: int, ignores: int, files: nat)
    ensures lines == 20 && ignores == 2 && files == 2
  {
    var stat := new IgnoreLinesStat();
    var foo := new IgnoreLinesInFile(["foo"], 10, 1);
    var again := new IgnoreLinesInFile(["foo"], 10, 1);
    stat.AddIgnores(foo);
    stat.AddIgnores(again);
    lines, ignores, files := stat.totalLines, stat.totalIgnores, |stat.ignoreByFile|;
  }

  /** With the guard as intended, the second record of the same file changes nothing. */
  method DuplicateCountedOnce() returns (lines: int, ignores: int, files: nat)
    ensures lines == 10 && ignores == 1 && files == 1
  {
    var stat := new IgnoreLinesStat();
    var foo := new IgnoreLinesInFile(["foo"], 10, 1);
    var again := new IgnoreLinesInFile(["foo"], 10, 1);
    stat.AddIgnoresOnce(foo);
    stat.AddIgnoresOnce(again);
    lines, ignores, files := stat.totalLines, stat.totalIgnores, |stat.ignoreByFile|;
  }

  // ---------------------------------------------------------------------------
  // IgnoreLinesStat.python_files and _is_python_file
  // ---------------------------------------------------------------------------

  /** `_is_python_file`: there is a suffix and the last one is `.py`. */
  predicate IsPythonFile(name: string)
  {
    var s := Suffixes(name);
    s != [] && s[|s| - 1] == ".py"
  }

  /** The three characters a string ending with `.py` ends with. */
  lemma PyEnd(t: string)
    ensures EndsWith(t, ".py") <==> |t| >= 3 && t[|t| - 3] == '.' && t[|t| - 2] == 'p' && t[|t| - 1] == 'y'
  {
    if |t| >= 3 {
      var e := t[|t| - 3..];
      assert e == [e[0], e[1], e[2]];
      assert t[|t| - 3] == e[0] && t[|t| - 2] == e[1] && t[|t| - 1] == e[2];
    }
  }

  /** A string ending with `.py` splits on dots into several pieces, the last `py`. */
  lemma PyEndSplits(t: string, p: seq<string>)
    requires p == Split(t, ".") && EndsWith(t, ".py")
    ensures |p| >= 2 && p[|p| - 1] == "py"
  {
    SplitLast(t, '.', p);
    var l := p[|p| - 1];
    var n := |t|;
    PyEnd(t);
    ShortTail(t, l, '.', n - 3);
    assert |l| == 2;
    assert l[0] == t[n - 2] && l[1] == t[n - 1];
  }

  /** Several pieces with the last `py` come from a string ending with `.py`. */
  lemma SplitsPyEnd(t: string, p: seq<string>)
    requires p == Split(t, ".") && |p| >= 2 && p[|p| - 1] == "py"
    ensures EndsWith(t, ".py")
  {
    SplitLast(t, '.', p);
    var n := |t|;
    assert t[n - 3..] == [t[n - 3]] + p[|p| - 1];
  }

  /** Split on dots, a string has a last piece `py` after at least one dot exactly when it ends with `.py`. */
  lemma SplitEndsWithPy(t: string, p: seq<string>)
    requires p == Split(t, ".")
    ensures (|p| >= 2 && p[|p| - 1] == "py") <==> EndsWith(t, ".py")
  {
    if EndsWith(t, ".py") {
      PyEndSplits(t, p);
    }
    if |p| >= 2 && p[|p| - 1] == "py" {
      SplitsPyEnd(t, p);
    }
  }

  /** The last character of a string ending with a dot. */
  lemma DotEnd(name: string)
    requires EndsWith(name, ".")
    ensures |name| >= 1 && name[|name| - 1] == '.'
  {
    assert name[|name| - 1..][0] == name[|name| - 1];
  }

  /** A name that ends with a dot does not end with `.py`, leading dots dropped or not. */
  lemma DotEndNotPy(name: string)
    requires EndsWith(name, ".")
    ensures !IsPythonFile(name) && !EndsWith(LStrip(name, '.'), ".py")
  {
    assert Suffixes(name) == [];
    var t := LStrip(name, '.');
    DotEnd(name);
    PyEnd(t);
    if |t| >= 1 {
      assert t[|t| - 1] == name[|name| - 1];
    }
  }

  /** Without a trailing dot, the suffixes are the pieces after the first, each behind a dot. */
  lemma SuffixesOfPieces(name: string, p: seq<string>)
    requires !EndsWith(name, ".") && p == Split(LStrip(name, '.'), ".")
    ensures |Suffixes(name)| == |p| - 1 && (|p| >= 2 ==> Suffixes(name)[|p| - 2] == "." + p[|p| - 1])
  {
  }

  /** The last suffix, when there is one, is a dot and the last piece. */
  lemma LastSuffix(name: string, p: seq<string>)
    requires !EndsWith(name, ".") && p == Split(LStrip(name, '.'), ".")
    ensures IsPythonFile(name) <==> |p| >= 2 && p[|p| - 1] == "py"
  {
    SuffixesOfPieces(name, p);
    if |p| >= 2 {
      var l := p[|p| - 1];
      assert ("." + l)[1..] == l;
    }
  }

  lemma NoDotEndPy(name: string)
    requires !EndsWith(name, ".")
    ensures IsPythonFile(name) <==> EndsWith(LStrip(name, '.'), ".py")
  {
    var p := Split(LStrip(name, '.'), ".");
    LastSuffix(name, p);
    SplitEndsWithPy(LStrip(name, '.'), p);
  }

  /** A name is a Python file's exactly when, leading dots dropped, it ends with `.py`
      (so `.py` and `..py` are not, and `a.tar.py` and `.hidden.py` are). */
  lemma IsPythonFileIff(name: string)
    ensures IsPythonFile(name) <==> EndsWith(LStrip(name, '.'), ".py")
  {
    if EndsWith(name, ".") {
      DotEndNotPy(name);
    } else {
      NoDotEndPy(name);
    }
  }

  /** What `python_files` yields for the entries `children` of the directory at path `at`,
      in listing order, with `keep` as `_is_python_file`: the files among them that `keep` accepts, and those below the subdirectories,
      each subdirectory's files where the subdirectory is listed. */
  function FilesIn(children: seq<Entry>, at: Path, keep: string -> bool): seq<Path>
    decreases children
  {
    if children == [] then []
    else
      var c := children[0];
      var here := at + [c.name];
      (if c.isDir then FilesIn(c.children, here, keep)
       else if keep(c.name) then [here]
       else [])
      + FilesIn(children[1..], at, keep)
  }

  /** `python_files(path)` for the entry `dir` found at `path`: `iterdir()` fails unless it is a directory. */
  function PythonFiles(dir: Entry, path: Path): (r: Option<seq<Path>>)
    ensures r.Some? <==> dir.isDir
  {
    if dir.isDir then Some(FilesIn(dir.children, path, IsPythonFile)) else None
  }

  /** There is a file at `rel` below the listing `children` whose name `keep` accepts. */
  ghost predicate FileBelow(children: seq<Entry>, rel: Path, keep: string -> bool)
  {
    exists e :: ReachesIn(children, rel, e) && !e.isDir && keep(e.name)
  }

  /** The first entry's part of what python_files yields for a listing. */
  function FilesOfFirst(children: seq<Entry>, at: Path, keep: string -> bool): seq<Path>
    requires children != []
  {
    var c := children[0];
    if c.isDir then FilesIn(c.children, at + [c.name], keep)
    else if keep(c.name) then [at + [c.name]]
    else []
  }

  lemma FilesInCons(children: seq<Entry>, at: Path, keep: string -> bool)
    requires children != []
    ensures FilesIn(children, at, keep) == FilesOfFirst(children, at, keep) + FilesIn(children[1..], at, keep)
  {
  }

  /** A path one level down, below a subdirectory `c` of a listing at `at`. */
  lemma DownOneLevel(children: seq<Entry>, at: Path, keep: string -> bool, p: Path)
    requires children != [] && children[0].isDir
    requires var here := at + [children[0].name];
      |p| > |here| && p[..|here|] == here && FileBelow(children[0].children, p[|here|..], keep)
    ensures |p| > |at| && p[..|at|] == at && FileBelow(children, p[|at|..], keep)
  {
    var c := children[0];
    var here := at + [c.name];
    var rel := p[|here|..];
    var e :| ReachesIn(c.children, rel, e) && !e.isDir && keep(e.name);
    assert p[..|at|] == p[..|here|][..|at|];
    assert p[|at|..] == [c.name] + rel by {
      assert p == here + rel;
    }
    assert ([c.name] + rel)[1..] == rel;
    assert ReachesFrom(c, p[|at|..], e);
    ReachesInCons(children, p[|at|..], e);
  }

  /** Everything python_files yields is a Python file below the directory. */
  lemma {:induction false} FilesInSound(children: seq<Entry>, at: Path, keep: string -> bool, p: Path)
    requires p in FilesIn(children, at, keep)
    ensures |p| > |at| && p[..|at|] == at && FileBelow(children, p[|at|..], keep)
    decreases children
  {
    var c := children[0];
    var here := at + [c.name];
    FilesInCons(children, at, keep);
    if p in FilesOfFirst(children, at, keep) {
      if c.isDir {
        FilesInSound(c.children, here, keep, p);
        DownOneLevel(children, at, keep, p);
      } else {
        assert p == here && p[|at|..] == [c.name];
        assert ReachesFrom(c, p[|at|..], c);
        ReachesInCons(children, p[|at|..], c);
      }
    } else {
      FilesInSound(children[1..], at, keep, p);
      var e :| ReachesIn(children[1..], p[|at|..], e) && !e.isDir && keep(e.name);
      ReachesInCons(children, p[|at|..], e);
    }
  }

  /** Every Python file below the directory is yielded. */
  lemma {:induction false} FilesInComplete(children: seq<Entry>, at: Path, keep: string -> bool, rel: Path, e: Entry)
    requires ReachesIn(children, rel, e) && !e.isDir && keep(e.name)
    ensures at + rel in FilesIn(children, at, keep)
    decreases children
  {
    var c := children[0];
    var here := at + [c.name];
    FilesInCons(children, at, keep);
    ReachesInCons(children, rel, e);
    if ReachesFrom(c, rel, e) {
      if |rel| == 1 {
        assert at + rel == here;
      } else {
        FilesInComplete(c.children, here, keep, rel[1..], e);
        assert at + rel == here + rel[1..];
      }
    } else {
      FilesInComplete(children[1..], at, keep, rel, e);
    }
  }

  /** Every path python_files yields lies below the folder. */
  lemma FoundBelow(dir: Entry, path: Path, p: Path)
    requires dir.isDir && p in PythonFiles(dir, path).value
    ensures RelativeTo(p, path).Some?
  {
    FilesInSound(dir.children, path, IsPythonFile, p);
  }

  /** python_files yields exactly the paths of the Python files below the directory. */
  lemma PythonFilesCorrect(dir: Entry, path: Path, p: Path)
    requires dir.isDir
    ensures p in PythonFiles(dir, path).value <==>
      |p| > |path| && p[..|path|] == path && FileBelow(dir.children, p[|path|..], IsPythonFile)
  {
    if p in PythonFiles(dir, path).value {
      FilesInSound(dir.children, path, IsPythonFile, p);
    }
    if |p| > |path| && p[..|path|] == path && FileBelow(dir.children, p[|path|..], IsPythonFile) {
      var e :| ReachesIn(dir.children, p[|path|..], e) && !e.isDir && IsPythonFile(e.name);
      FilesInComplete(dir.children, path, IsPythonFile, p[|path|..], e);
      assert path + p[|path|..] == p;
    }
  }

  // The directory tree of the test suite's python_files fixture, listed in creation order.

  function File(name: string): Entry
  {
    Entry(name, false, [])
  }

  const FixtureSub: seq<Entry> := [File("file3.py"), File("file4.txt")]
  const FixtureSubfolder: seq<Entry> :=
    [File("file1.py"), File("file2.py"), Entry("sub", true, FixtureSub), File("foo.csv")]
  const FixtureTree: Entry := Entry("tmp", true, [
    File("root.py"), Entry("subfolder", true, FixtureSubfolder), File("Dockerfile"),
    Entry("resources", true, [File("random.md")])
  ])

  // The walk over the fixture tree, level by level, for any file filter that accepts the
  // four `.py` names and rejects the four others.

  lemma FixtureSubWalk(keep: string -> bool)
    requires keep("file3.py") && !keep("file4.txt")
    ensures FilesIn(FixtureSub, ["tmp", "subfolder", "sub"], keep) == [["tmp", "subfolder", "sub", "file3.py"]]
  {
    var at := ["tmp", "subfolder", "sub"];
    FilesInCons(FixtureSub, at, keep);
    assert FilesOfFirst(FixtureSub, at, keep) == [at + ["file3.py"]];
    FilesInCons(FixtureSub[1..], at, keep);
    assert FilesOfFirst(FixtureSub[1..], at, keep) == [];
    assert FixtureSub[1..][1..] == [];
    assert at + ["file3.py"] == ["tmp", "subfolder", "sub", "file3.py"];
  }

  lemma FixtureSubfolderWalk(keep: string -> bool)
    requires keep("file1.py") && keep("file2.py") && keep("file3.py") && !keep("file4.txt") && !keep("foo.csv")
    ensures FilesIn(FixtureSubfolder, ["tmp", "subfolder"], keep) ==
      [["tmp", "subfolder", "file1.py"], ["tmp", "subfolder", "file2.py"], ["tmp", "subfolder", "sub", "file3.py"]]
  {
    var at := ["tmp", "subfolder"];
    var ls := FixtureSubfolder;
    FixtureSubWalk(keep);
    FilesInCons(ls, at, keep);
    assert FilesOfFirst(ls, at, keep) == [at + ["file1.py"]];
    FilesInCons(ls[1..], at, keep);
    assert FilesOfFirst(ls[1..], at, keep) == [at + ["file2.py"]];
    assert ls[1..][1..] == ls[2..];
    FilesInCons(ls[2..], at, keep);
    assert ls[2..][0] == Entry("sub", true, FixtureSub);
    assert at + ["sub"] == ["tmp", "subfolder", "sub"];
    assert FilesOfFirst(ls[2..], at, keep) == [["tmp", "subfolder", "sub", "file3.py"]];
    assert ls[2..][1..] == ls[3..];
    FilesInCons(ls[3..], at, keep);
    assert FilesOfFirst(ls[3..], at, keep) == [];
    assert ls[3..][1..] == [];
    assert at + ["file1.py"] == ["tmp", "subfolder", "file1.py"];
    assert at + ["file2.py"] == ["tmp", "subfolder", "file2.py"];
  }

  lemma FixtureLaterEntries(keep: string -> bool)
    requires !keep("Dockerfile") && !keep("random.md")
    ensures FilesIn(FixtureTree.children[2..], ["tmp"], keep) == []
  {
    var ls := FixtureTree.children[2..];
    var at := ["tmp"];
    FilesInCons([File("random.md")], ["tmp", "resources"], keep);
    FilesInCons(ls, at, keep);
    assert FilesOfFirst(ls, at, keep) == [];
    FilesInCons(ls[1..], at, keep);
    assert ls[1..][0] == Entry("resources", true, [File("random.md")]);
    assert FilesOfFirst(ls[1..], at, keep) == [];
    assert ls[1..][1..] == [];
  }

  lemma FixtureWalk(keep: string -> bool)
    requires keep("root.py") && keep("file1.py") && keep("file2.py") && keep("file3.py")
    requires !keep("file4.txt") && !keep("foo.csv") && !keep("Dockerfile") && !keep("random.md")
    ensures FilesIn(FixtureTree.children, ["tmp"], keep) ==
      [["tmp", "root.py"], ["tmp", "subfolder", "file1.py"], ["tmp", "subfolder", "file2.py"],
       ["tmp", "subfolder", "sub", "file3.py"]]
  {
    var ls := FixtureTree.children;
    var at := ["tmp"];
    FixtureSubfolderWalk(keep);
    FixtureLaterEntries(keep);
    FilesInCons(ls, at, keep);
    assert FilesOfFirst(ls, at, keep) == [["tmp", "root.py"]] by {
      assert at + ["root.py"] == ["tmp", "root.py"];
    }
    FilesInCons(ls[1..], at, keep);
    assert FilesOfFirst(ls[1..], at, keep) == FilesIn(FixtureSubfolder, ["tmp", "subfolder"], keep) by {
      assert ls[1..][0] == Entry("subfolder", true, FixtureSubfolder);
      assert at + ["subfolder"] == ["tmp", "subfolder"];
    }
    assert ls[1..][1..] == ls[2..];
  }

  /** A name that starts with no dot and ends with `.py` is a Python file's. */
  lemma PythonName(name: string)
    requires |name| >= 3 && name[0] != '.'
    requires name[|name| - 3] == '.' && name[|name| - 2] == 'p' && name[|name| - 1] == 'y'
    ensures IsPythonFile(name)
  {
    assert LStrip(name, '.') == name;
    assert name[|name| - 3..] == ".py";
    IsPythonFileIff(name);
  }

  /** A name that starts with no dot and does not end with `y` is not a Python file's. */
  lemma OtherName(name: string)
    requires name != [] && name[0] != '.' && name[|name| - 1] != 'y'
    ensures !IsPythonFile(name)
  {
    assert LStrip(name, '.') == name;
    if |name| >= 3 {
      assert name[|name| - 3..][2] == name[|name| - 1];
    }
    IsPythonFileIff(name);
  }

  lemma FixtureOtherNames()
    ensures !IsPythonFile("file4.txt") && !IsPythonFile("foo.csv") && !IsPythonFile("Dockerfile") && !IsPythonFile("random.md")
  {
    OtherName("file4.txt");
    OtherName("foo.csv");
    OtherName("Dockerfile");
    OtherName("random.md");
  }

  lemma FixturePythonNames()
    ensures IsPythonFile("root.py") && IsPythonFile("file1.py") && IsPythonFile("file2.py") && IsPythonFile("file3.py")
  {
    PythonName("root.py");
    PythonName("file1.py");
    PythonName("file2.py");
    PythonName("file3.py");
  }

  /** python_files on the fixture yields the four Python files and none of the others. */
  lemma FixturePythonFiles()
    ensures PythonFiles(FixtureTree, ["tmp"]) ==
      Some([["tmp", "root.py"], ["tmp", "subfolder", "file1.py"], ["tmp", "subfolder", "file2.py"],
            ["tmp", "subfolder", "sub", "file3.py"]])
  {
    FixturePythonNames();
    FixtureOtherNames();
    FixtureWalk(IsPythonFile);
  }
}
