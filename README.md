# cuality, modelled in Dafny

A model of three developer-productivity scripts of the *cuality* repository and proofs about them:

- **Linter-ignore audit** (`cuality/lint_ignores.py`). The pattern `IGNORE_PATTERN` recognises
  suppression directives (`noqa:`, `pylint:`, `type: ignore`, `nosec`, `mypy:`, `pragma:`).
  `parse_line` decides whether a line counts as code, as an ignore, or both. `from_file` reads a
  file line by line. `add_ignores` and `parse_project_folder` sum the per-file counts.
  `python_files` and `_is_python_file` walk the project and pick files by their last suffix.
- **Project analyser** (`cuality/analyze.py`). `analyze` takes the immediate subdirectories that
  hold a `setup.py` as packages. `find_migrations` searches each package depth-first for a
  directory named `migration`. `Project.__str__` renders the packages as a padded two-column
  table, with column widths starting at 4 and 10.
- **Pull-request export** (`cuality/github.py`). `fetch_pull_requests` walks the pages of the
  host's listing by following the `next` relation of each page's `Link` header.
  `extract_pr_data` turns each record into a six-column row. The status column uses Python
  truthiness on `merged_at`.

Files:

- `wrappers.dfy` — `Option` and `Result`.
- `strings.dfy` — the Python string operations the scripts use: `strip` with Python's
  whitespace set, `split`, `join`, `find`, slices with negative bounds, left-justified padding.
- `tree.dfy` — an abstract file system. A path is a sequence of components. A directory entry
  lists its children in `iterdir()` order. The module also holds `relative_to` and
  `Path.suffixes`.
- `lint_ignores.dfy`, `analyze.dfy`, `github.dfy` — one module per script.

How the Python is represented:

- Objects whose fields the scripts update become classes with `modifies` clauses:
  `IgnoreLinesInFile`, `IgnoreLinesStat`, `Package`, `Project`.
- Loops stay loops: the `readline()` loop, the file loop of `parse_project_folder`, the
  width loop and the row loop of `__str__`, the loop of `analyze`, and the `while url` loop.
- Each of these methods is proved against a specification function, and the properties the
  scripts promise are lemmas about those functions.
- The file system, the file contents and the remote host are parameters:
  - a directory `Entry`;
  - a function from a path to the file's text;
  - a function from a URL to a `Response`.
- Exceptions become `None` or `Failure` values. Examples: `ValueError` from `relative_to`,
  `AttributeError` from `set_root(None)`, `IndexError` from a `Link` entry without `"; "`,
  `HTTPError` from `raise_for_status`.

Two behaviours of the code differ from what it evidently intends. The model gives both the code
as written and the intended version, each listed under Findings:

- `from_file` with its default `root_folder=None` passes `None` to `set_root`, which raises
  `AttributeError` instead of keeping the path.
- `add_ignores` does not deduplicate: its guard is always true.

`find_migrations` does not stop at the first match. Its `return` leaves only the current level,
so a `migration` folder in a later sibling subtree replaces an earlier one. The model keeps this
behaviour; see `Analyze.LaterSubtreeWins`.

## Model

| member | source | states |
|---|---|---|
| LintIgnores.IgnorePattern | cuality/lint_ignores.py:9-11 | the pattern's meaning: a match of a newline-free prefix, `#`, whitespace and a directive at the start of the string; MatchesIgnoreCorrect proves the scanner equal to it |
| LintIgnores.MatchesIgnore | cuality/lint_ignores.py:9-11 | the executable `IGNORE_PATTERN.match` test; its property is MatchesIgnoreCorrect |
| LintIgnores.MatchesIgnoreCorrect | cuality/lint_ignores.py:9-11 | the executable scanner accepts a string exactly when `IGNORE_PATTERN.match` does: some newline-free prefix, then `#`, whitespace, and one of the six directives, where `type:` may be followed by whitespace before `ignore` |
| LintIgnores.NoHashNoMatch | cuality/lint_ignores.py:9-11 | a string without `#` never matches the pattern |
| LintIgnores.CommentWithoutDirective | cuality/lint_ignores.py:9-11 | a comment that holds no further `#`, and whose first word cannot start a directive, does not match |
| LintIgnores.IgnoreLinesInFile.ParseLine | cuality/lint_ignores.py:23-30 | `total_lines` goes up by one exactly when the stripped line is non-empty and does not start with `#`; `total_ignores` goes up by one exactly when the stripped line is non-empty and the pattern matches it; the path never changes |
| LintIgnores.CountsAsCode | cuality/lint_ignores.py:24-28 | the `total_lines` test of parse_line on the stripped line; ParseLine, BlankLineCountsNothing and CommentLineIsNotCode state its cases |
| LintIgnores.CountsAsIgnore | cuality/lint_ignores.py:24-30 | the `total_ignores` test of parse_line on the stripped line; ParseLine and StrippedLine state its cases |
| LintIgnores.BlankLineCountsNothing | cuality/lint_ignores.py:24-26 | an empty or all-whitespace line counts neither as code nor as an ignore |
| LintIgnores.CommentLineIsNotCode | cuality/lint_ignores.py:27-28 | a line whose first non-blank character is `#` never counts as code |
| LintIgnores.StrippedLine | cuality/lint_ignores.py:23-30 | an indented line is classified by its text between the indentation and the newline: it is an ignore exactly when that text matches, and code exactly when that text does not start with `#` |
| LintIgnores.DirectiveLine | cuality/lint_ignores.py:23-30 | a line of code with a trailing directive comment counts as an ignore and as code; a comment-only directive line counts as an ignore and not as code |
| LintIgnores.DirectiveLineAtEnd | cuality/lint_ignores.py:23-30 | the same when the directive word ends the line |
| LintIgnores.CodeWithoutHash | cuality/lint_ignores.py:23-30 | code without a `#` counts as code and never as an ignore |
| LintIgnores.CodeLineWithDirectiveCountsTwice | cuality/lint_ignores.py:27-30 | the two counters are independent: the fixture's `sys.exit(0)    # type: ignore` raises both |
| LintIgnores.TypeIgnoreLine | tests/test_lint_ignores.py:79 | `def main():    # type: ignore` counts as an ignore |
| LintIgnores.NoqaLine | tests/test_lint_ignores.py:80 | `import foo  # noqa: foo` counts as an ignore |
| LintIgnores.MypyLine | tests/test_lint_ignores.py:81 | the `mypy:` line of the test counts as an ignore |
| LintIgnores.PylintLine | tests/test_lint_ignores.py:82 | `import foo  # pylint: disable=no-member` counts as an ignore |
| LintIgnores.PylintCommentLine | tests/test_lint_ignores.py:83 | `# pylint: disable=no-member` on its own counts as an ignore and not as code |
| LintIgnores.NosecLine | tests/test_lint_ignores.py:84 | `import foo  # nosec B602, B607` counts as an ignore |
| LintIgnores.PragmaLine | tests/test_lint_ignores.py:85 | `import foo  # pragma: no cover` counts as an ignore |
| LintIgnores.PlainCommentLine | tests/test_lint_ignores.py:97 | `# some comment` counts neither as code nor as an ignore |
| LintIgnores.EmptyTestLine | tests/test_lint_ignores.py:98 | `"\n"` counts for nothing |
| LintIgnores.IndentedTestLine | tests/test_lint_ignores.py:99 | `"    \n"` counts for nothing |
| LintIgnores.SpaceTestLine | tests/test_lint_ignores.py:100 | `" "` counts for nothing |
| LintIgnores.IgnoreLinesInFile.SetRoot | cuality/lint_ignores.py:20-21 | below the root, the path becomes the rest of the path after the root; a path outside the root fails as `relative_to` does; no root fails as `None.resolve()` does; the counters never change |
| LintIgnores.ReadLine | cuality/lint_ignores.py:40 | one `readline()` call at a position of the text: the characters from there up to and including the next newline, or to the end; empty exactly at the end of the text |
| LintIgnores.ReadLines | cuality/lint_ignores.py:39-43 | the successive lines the loop reads until `readline()` returns ""; ReadLinesGiveBack, ReadLinesAreLines and ReadLinesConcat state what they are |
| LintIgnores.ReadLinesGiveBack | cuality/lint_ignores.py:38-43 | the lines `readline()` returns, put back together, are the whole text |
| LintIgnores.ReadLinesAreLines | cuality/lint_ignores.py:38-43 | no line read is empty, only a line's last character can be a newline, and every line but the last ends with one |
| LintIgnores.ReadLinesConcat | cuality/lint_ignores.py:38-43 | reading back complete lines written one after the other gives those lines |
| LintIgnores.IgnoreLinesInFile.ReadAll | cuality/lint_ignores.py:38-43 | the loop adds to the counters the code and ignore counts of every line `readline()` returns, up to the end of the text, and leaves the path alone |
| LintIgnores.IgnoreLinesInFile.ParseNextLine | cuality/lint_ignores.py:40-43 | one turn of the loop advances past the line read and moves that line's counts into the counters |
| LintIgnores.IgnoreLinesInFile.FromFile | cuality/lint_ignores.py:32-44 | as written: no root fails; a path outside the root fails; otherwise a fresh record with the path relative to the root and the counts of every line of the text |
| LintIgnores.IgnoreLinesInFile.FromFileOptionalRoot | cuality/lint_ignores.py:32-44 | as the default argument intends: with no root the path is kept; otherwise the same as FromFile |
| LintIgnores.FixtureRead | tests/test_lint_ignores.py:64-73 | reading the fixture file gives back its seven lines |
| LintIgnores.FixtureCounts | tests/test_lint_ignores.py:57-73 | the fixture file has five lines of code and one ignore |
| LintIgnores.FixtureWithoutRoot | tests/test_lint_ignores.py:57-61 | with the code as written, the test's call without a root fails |
| LintIgnores.FixtureFromFile | tests/test_lint_ignores.py:57-61 | with the corrected from_file, the test gets five lines, one ignore and the path unchanged |
| LintIgnores.IgnoreLinesStat.AddIgnores | cuality/lint_ignores.py:53-57 | as written, the record is always appended and both totals grow by its counts; the totals stay the sums over the records |
| LintIgnores.IgnoreLinesStat.AddIgnoresOnce | cuality/lint_ignores.py:53-57 | as the guard intends: a record for an already recorded file changes nothing, any other is appended and counted; the totals stay the sums, and no file is recorded twice |
| LintIgnores.AddIgnoresExample | tests/test_lint_ignores.py:9-23 | records of 10 lines with 1 ignore and of 15 lines with 2 ignores give totals of 25 and 3 over two records |
| LintIgnores.DuplicateCountedTwice | cuality/lint_ignores.py:54 | as written, the same file added twice is counted twice |
| LintIgnores.DuplicateCountedOnce | cuality/lint_ignores.py:54 | with the guard as intended, the second record of the same file changes nothing |
| LintIgnores.IgnoreLinesStat.ParseProjectFolder | cuality/lint_ignores.py:59-62 | not a directory: fails and changes nothing; otherwise exactly one new record per file `python_files` yields, in that order, after the old records, each relative to the folder and carrying the counts of its text; the totals stay the sums |
| LintIgnores.IgnoreLinesStat.AddFile | cuality/lint_ignores.py:61-62 | one file of the loop: a fresh record whose path is relative to the folder and whose counts are those of the file's text, appended after the old records; the totals stay the sums |
| LintIgnores.IgnoreLinesStat.AddAll | cuality/lint_ignores.py:60-62 | the loop over the yielded files appends their records in order |
| LintIgnores.IgnoreLinesStat.AddNext | cuality/lint_ignores.py:61-62 | one turn of that loop appends the record of the next file and keeps the earlier ones |
| LintIgnores.IsPythonFile | cuality/lint_ignores.py:80-82 | `_is_python_file`: the name has suffixes and the last is `.py`; IsPythonFileIff and DotEndNotPy state what that means |
| LintIgnores.IsPythonFileIff | cuality/lint_ignores.py:80-82 | a name passes `_is_python_file` exactly when, with its leading dots dropped, it ends with `.py` |
| LintIgnores.DotEndNotPy | cuality/lint_ignores.py:80-82 | a name ending with a dot has no suffixes and is never a Python file |
| LintIgnores.PythonFiles | cuality/lint_ignores.py:73-78 | `python_files`: a result exactly when the folder is a directory, then the recursive walk FilesIn over its listing |
| LintIgnores.FilesIn | cuality/lint_ignores.py:73-78 | the generator's recursion over one listing, in listing order, descending into directories and keeping the files that pass the test; FilesInSound and FilesInComplete state what it yields |
| LintIgnores.PythonFilesCorrect | cuality/lint_ignores.py:73-78 | a path is yielded exactly when it names a non-directory below the folder, reached through directories, whose name passes `_is_python_file` |
| LintIgnores.FilesInSound | cuality/lint_ignores.py:73-78 | everything yielded lies below the folder and is such a file |
| LintIgnores.FilesInComplete | cuality/lint_ignores.py:73-78 | every such file is yielded |
| LintIgnores.FoundBelow | cuality/lint_ignores.py:73-78 | every yielded path lies below the folder, so `relative_to` in from_file succeeds |
| LintIgnores.FixturePythonFiles | tests/test_lint_ignores.py:26-47 | on the test's tree, the walk yields exactly `root.py`, `subfolder/file1.py`, `subfolder/file2.py` and `subfolder/sub/file3.py`, in listing order |
| Tree.RelativeTo | cuality/analyze.py:42 | `relative_to` succeeds exactly when the root is a prefix of the path, and the root followed by the result is the path |
| Tree.RelativeToJoin | cuality/lint_ignores.py:21 | `relative_to` undoes joining a path onto the root |
| Tree.Suffixes | cuality/lint_ignores.py:82 | every suffix is non-empty and starts with a dot |
| Analyze.AfterChildren | cuality/analyze.py:19-24 | the `for` loop over one listing, as a function: the `migration` field after visiting the directories in order, stopping at the first `migration` child; DirectChildWins and WalkConcat state its behaviour |
| Analyze.AfterSearch | cuality/analyze.py:16-24 | the field after `find_migrations` on one entry: unchanged on a file, else the loop over its listing; FoundIsMigration and NoMigrationUnchanged state what it records |
| Analyze.Package.FindMigrationsAt | cuality/analyze.py:16-24 | the walk leaves `migrations` as Analyze.AfterSearch defines it: files skipped, a `migration` directory recorded and its level left, any other directory searched in turn; the package path is unchanged |
| Analyze.Package.FindMigrations | cuality/analyze.py:16-17 | with no argument the walk starts at the package's own folder |
| Analyze.FoundIsMigration | cuality/analyze.py:16-24 | whatever the walk records is a directory named `migration` strictly below the folder searched, reached through directories; otherwise the field is left as it was |
| Analyze.NoMigrationUnchanged | cuality/analyze.py:16-24 | with no `migration` directory anywhere below, the walk changes nothing |
| Analyze.DirectChildWins | cuality/analyze.py:19-22 | the first `migration` directory listed directly in a folder is what the walk of that folder records, whatever the earlier subtrees hold |
| Analyze.WalkConcat | cuality/analyze.py:19-24 | listings without a direct `migration` child are walked one after the other, the second continuing from what the first recorded |
| Analyze.LaterSubtreeWins | cuality/analyze.py:20-24 | in a package holding `a/migration` and then `b/migration`, the walk records `b/migration` |
| Analyze.MigrationCell | cuality/analyze.py:41-45 | the migrations cell of a package: "" when nothing was found, else `str(m.relative_to(root))`, None where `relative_to` raises; TableOf and AnalyzedProjectRenders state its cases |
| Analyze.TableOf | cuality/analyze.py:36-47 | the table exists exactly when every migration cell can be made; then it is the heading followed by one row per package, in order, holding the package name and the migration path relative to the project, or "" |
| Analyze.Project.Table | cuality/analyze.py:36-47 | the loop builds that table, or stops where `relative_to` raises |
| Analyze.MaxLen | cuality/analyze.py:49-54 | the width is at least the start value and every cell's length, and it is the start value or some cell's length |
| Analyze.ColumnWidths | cuality/analyze.py:49-54 | the loop's widths are those maxima, starting at 4 and 10 |
| Analyze.TableFits | cuality/analyze.py:49-58 | every cell of the table fits the widths computed for it |
| Analyze.FormatRow | cuality/analyze.py:56-58 | `format_.format(*row)`: the two cells of a row padded to the widths w1 and w2, between bars; its layout is FormatRowFields |
| Analyze.FormatRowFields | cuality/analyze.py:56-58 | a row whose cells fit has length w1 + w2 + 7 and reads: a bar and a space, the name padded with spaces to the first width, a space, a bar and a space, the path padded to the second width, then a space and a bar |
| Analyze.RowsLength | cuality/analyze.py:57-58 | rendered rows that fit all have the same length, so the table's text is its row count times (w1 + w2 + 8) |
| Analyze.RowAt | cuality/analyze.py:57-58 | row k is rendered after the rows before it and before the rows after it |
| Analyze.FormatTable | cuality/analyze.py:49-58 | the loop renders every row, in order, padded to the computed widths |
| Analyze.Header | cuality/analyze.py:33 | the first two lines of `__str__`: `Project`, the folder's name, then a tab and its absolute path; Project.Str and Render are stated with it |
| Analyze.Render | cuality/analyze.py:32-59 | the text `__str__` returns for a project's path and listing, None where `relative_to` raises; Project.Str is proved equal to it |
| Analyze.Project.Str | cuality/analyze.py:32-59 | `__str__` is the header (name and absolute path), then, for a project with packages, `Packages: ` and the rendered table; None where `relative_to` raises |
| Analyze.PackageDirs | cuality/analyze.py:66-67 | the subdirectories of the listing that hold `setup.py`, in listing order; PackageDirsMember and PackageDirsConcat state this |
| Analyze.PackageDirsMember | cuality/analyze.py:66-67 | an entry is taken as a package exactly when it is a subdirectory of the listing holding an entry named `setup.py` |
| Analyze.PackageDirsConcat | cuality/analyze.py:66-70 | packages keep the listing order |
| Analyze.Analyze | cuality/analyze.py:62-71 | no project unless the folder exists and is a directory; otherwise a project with one package per qualifying subdirectory, in listing order, each at its own path and carrying the migration folder the walk records for it |
| Analyze.AnalyzedProjectRenders | cuality/analyze.py:42 | a project made by analyze always renders: each recorded migration folder lies below the project, so `relative_to` never raises |
| GitHub.Status | cuality/github.py:34-38 | "merged" exactly when `merged_at` is truthy or the raw state already is "merged"; "declined" exactly when `merged_at` is falsy and the state is "closed" or already "declined"; never "closed"; otherwise the raw state of an unmerged record |
| GitHub.Normalize | cuality/github.py:39-42 | six columns: id, login, base branch, creation time, status, then the merge time when `merged_at` is truthy and the close time otherwise, so that column is truthy exactly when the record has a merge time or a close time, and any row not reading "merged" carries the close time |
| GitHub.ExtractPrData | cuality/github.py:27-43 | one row per record, in record order |
| GitHub.LinkEntry | cuality/github.py:19 | one entry of the comprehension: the name `[5:-1]` of the piece after the first `"; "` and the URL `[1:-1]` of the piece before it, None where indexing raises IndexError; LinkEntryFails and EntryRoundTrip state it |
| GitHub.LinkEntryFails | cuality/github.py:19 | an entry fails to parse exactly when it holds no `"; "` |
| GitHub.ParseLinks | cuality/github.py:18-21 | the comprehension over the header's `", "`-separated entries; ParseLinksFails, LinkMapHas, LinkMapLast and HeaderRoundTrip state it |
| GitHub.ParseLinksFails | cuality/github.py:18-21 | a header fails to parse exactly when one of its `", "`-separated entries holds no `"; "` |
| GitHub.LinksFromFails | cuality/github.py:18-21 | the dictionary comprehension fails exactly when some entry has no `"; "` |
| GitHub.EntryRoundTrip | cuality/github.py:19 | an entry written as `<url>; rel="name"` for a plain URL and name parses back to that name and URL |
| GitHub.LinkMapHas | cuality/github.py:18-21 | a relation name is in the dictionary exactly when some link carries it |
| GitHub.LinkMapLast | cuality/github.py:18-21 | a relation name maps to the URL of the last link that carries it |
| GitHub.HeaderRoundTrip | cuality/github.py:17-21 | a header written for plain links parses to that dictionary |
| GitHub.NextUrl | cuality/github.py:16-24 | the next URL from the `Link` header: the walk stops with no header or an empty one, fails where the comprehension raises, else takes `links.get("next")`; NextUrlCases states its cases |
| GitHub.NextUrlCases | cuality/github.py:16-24 | the header decides the next page: failure exactly when a non-empty header does not parse; a next page exactly when the parsed header has `next`, and then its URL |
| GitHub.NextOfHeader | cuality/github.py:22 | a header whose only link is `next` leads to that link's URL |
| GitHub.IsHttpError | cuality/github.py:14 | the statuses `raise_for_status` raises for, 400 to 599; a page answered with one of them ends Walk with HttpError |
| GitHub.Walk | cuality/github.py:12-24 | the `while url` loop as a recursive function: fetch a page, fail on an HTTP error status, add its records, then continue at the next URL while it is non-empty; FetchFrom is proved equal to it, and WalkMoreFuel, TwoPages and SelfLinkNeverEnds are about it |
| GitHub.FetchPage | cuality/github.py:13-24 | one pass of the loop either ends the walk with its result or moves to a non-empty next URL whose walk, after this page's records, is the walk from here |
| GitHub.FetchFrom | cuality/github.py:12-24 | the `while url` loop returns exactly GitHub.Walk: the records of every page in order, or the first error |
| GitHub.FetchPullRequests | cuality/github.py:8-24 | the walk starts at the repository's pull-request listing URL |
| GitHub.WalkMoreFuel | cuality/github.py:12-24 | the page bound only limits the walk: a walk that finishes gives the same result with more pages allowed |
| GitHub.TwoPages | cuality/github.py:12-22 | a first page linking to a second without a `Link` header gives the records of both, in order |
| GitHub.SelfLinkNeverEnds | cuality/github.py:12-22 | a page whose `next` link names itself is fetched forever: the walk uses up any page bound |

## Left out

- Reading files from disk, `Path.resolve()` and symbolic links. A file's text is a parameter:
  what the text-mode reader delivers, with universal newlines already translated to `\n`. A
  lone `\r` left in the text ends a line for Python but not for ReadLines. Paths are taken as
  already resolved, so `relative_to` is a prefix test on path components.
- `save_stat_to_csv` (`cuality/lint_ignores.py:64-71`) and `write_to_csv`
  (`cuality/github.py:46-58`): CSV output is I/O.
- `lint_ignores` (`cuality/lint_ignores.py:85-88`), `read_github_pr_data` and `main` in
  `analyze.py`: they are command-line glue.
- `cuality/feature_delivery.py` and `cuality/main.py` are not part of this model.
- The HTTP session, the `Authorization` header and the query parameters (`state=all`,
  `per_page=100`). The host is a function from a URL to a response, with the status, the
  decoded records and the `Link` header.
- JSON decoding, and the `KeyError` a record missing a field would raise. A record carries
  exactly the fields the export reads.
- `fetch_pull_requests` is lazy, so the records of pages yielded before an error reach
  `extract_pr_data` before the error does. The model returns either all the records or the
  error.
- GitHub.Walk: the number of pages is bounded by a fuel parameter, and a walk that runs out
  reports `OutOfFuel`. The unbounded loop is not modelled. WalkMoreFuel shows the bound changes
  no finished walk, and SelfLinkNeverEnds shows a host that makes the Python loop run forever.
- Python's whitespace set is that of `str.isspace`, which `\s` also uses on `str` patterns.
  There is no other Unicode processing.
- Tree.Suffixes follows `Path.suffixes` as in Python 3.10 to 3.12. Later versions treat names
  ending with a dot differently.
- LintIgnores.IgnoreLinesStat.ParseProjectFolder calls AddIgnores, not AddIgnoresOnce, because
  the code as written never deduplicates: its guard is always true (the second Findings row).

## Findings

| source | as written | input that shows it | evidently intended | confidence | as-written member | corrected member |
|---|---|---|---|---|---|---|
| cuality/lint_ignores.py:33-37 | `from_file` passes its default `root_folder=None` to `set_root`, which calls `None.resolve()` and raises `AttributeError` | `IgnoreLinesInFile.from_file(python_test_file)` at tests/test_lint_ignores.py:58, which then checks that the path is unchanged | with no root, keep the file's path and count its lines | high, not executed | LintIgnores.IgnoreLinesInFile.FromFile, LintIgnores.FixtureWithoutRoot | LintIgnores.IgnoreLinesInFile.FromFileOptionalRoot, LintIgnores.FixtureFromFile |
| cuality/lint_ignores.py:54 | the guard `file_stat.file not in self.ignore_by_file` compares a `Path` with the records themselves, so it is always true and every record is appended | adding two records for `foo`, 10 lines and 1 ignore each, gives totals 20 and 2 | a file already recorded is not counted again (totals 10 and 1) | high, not executed | LintIgnores.IgnoreLinesStat.AddIgnores, LintIgnores.DuplicateCountedTwice | LintIgnores.IgnoreLinesStat.AddIgnoresOnce, LintIgnores.DuplicateCountedOnce |
