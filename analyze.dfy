/**
  The project analyser: a project folder, the packages below it (the immediate
  subdirectories holding a `setup.py`), the `migration` folder found in each
  package, and the table that describes them.
 */
module Analyze {
  import opened Wrappers
  import opened Strings
  import opened Tree

  // ---------------------------------------------------------------------------
  // find_migrations
  // ---------------------------------------------------------------------------

  const MigrationName := "migration"

  /** A subdirectory the walk stops at. */
  predicate IsMigrationDir(c: Entry)
  {
    c.isDir && c.name == MigrationName
  }

  /** What `migrations` holds, starting from `m`, after find_migrations has walked the listing
      `children` of the directory at `at`. Files are skipped; a directory named `migration` is
      recorded and ends the walk of this listing; any other directory is walked first, and
      whatever it recorded stays unless a later entry records something else. */
  function AfterChildren(children: seq<Entry>, at: Path, m: Option<Path>): Option<Path>
    decreases children
  {
    if children == [] then m
    else
      var c := children[0];
      if !c.isDir then AfterChildren(children[1..], at, m)
      else if c.name == MigrationName then Some(at + [c.name])
      else AfterChildren(children[1..], at, AfterChildren(c.children, at + [c.name], m))
  }

  /** What `migrations` holds after find_migrations(path) for the entry `dir` at `path`. */
  function AfterSearch(dir: Entry, path: Path, m: Option<Path>): Option<Path>
  {
    if dir.isDir then AfterChildren(dir.children, path, m) else m
  }

  /** A directory named `migration` lies at `rel` below the listing, reached through directories. */
  ghost predicate MigrationAt(children: seq<Entry>, rel: Path)
  {
    exists e :: ReachesIn(children, rel, e) && IsMigrationDir(e)
  }

  /** A package: its folder and the migration folder found in it, if any. */
  class Package {
    var path: Path
    var migrations: Option<Path>

    constructor (path: Path)
      ensures this.path == path && migrations == None
    {
      this.path := path;
      migrations := None;
    }

    /** find_migrations(path) for the entry `dir` found at `at`: walks its subdirectories in
        listing order, recording a `migration` folder and leaving that level when it meets one,
        and otherwise searching each subdirectory in turn. */
    method FindMigrationsAt(dir: Entry, at: Path)
      modifies this
      decreases dir
      ensures path == old(path)
      ensures migrations == AfterSearch(dir, at, old(migrations))
    {
      if dir.isDir {
        var i := 0;
        while i < |dir.children|
          invariant 0 <= i <= |dir.children|
          invariant path == old(path)
          invariant AfterChildren(dir.children[i..], at, migrations) == AfterChildren(dir.children, at, old(migrations))
        {
          var folder := dir.children[i];
          assert dir.children[i..][1..] == dir.children[i + 1..];
          if folder.isDir {
            if folder.name == MigrationName {
              migrations := Some(at + [folder.name]);
              return;
            } else {
              FindMigrationsAt(folder, at + [folder.name]);
            }
          }
          i := i + 1;
        }
      }
    }

    /** find_migrations() with no argument: the walk starts at the package's own folder, whose
        entry is `dir`. */
    method FindMigrations(dir: Entry)
      modifies this
      ensures path == old(path)
      ensures migrations == AfterSearch(dir, path, old(migrations))
    {
      FindMigrationsAt(dir, path);
    }
  }

  /** With no directory named `migration` anywhere below the listing, the walk changes nothing. */
  lemma NoMigrationUnchanged(children: seq<Entry>, at: Path, m: Option<Path>)
    requires forall rel :: !MigrationAt(children, rel)
    ensures AfterChildren(children, at, m) == m
  {
    FoundIsMigration(children, at, m);
  }

  /** Whatever the walk records is a directory named `migration` strictly below `at`. */
  lemma {:induction false} FoundIsMigration(children: seq<Entry>, at: Path, m: Option<Path>)
    ensures var r := AfterChildren(children, at, m);
      r == m || (r.Some? && exists rel :: r.value == at + rel && MigrationAt(children, rel))
    decreases children
  {
    if children != [] {
      var c := children[0];
      var r := AfterChildren(children, at, m);
      if !c.isDir {
        FoundBelowRest(children, at, m);
      } else if c.name == MigrationName {
        assert ReachesFrom(c, [c.name], c);
        ReachesInCons(children, [c.name], c);
        assert r.value == at + [c.name] && MigrationAt(children, [c.name]);
      } else {
        var here := at + [c.name];
        var m1 := AfterChildren(c.children, here, m);
        FoundIsMigration(c.children, here, m);
        FoundIsMigration(children[1..], at, m1);
        if r != m1 {
          var rel :| r.value == at + rel && MigrationAt(children[1..], rel);
          var e :| ReachesIn(children[1..], rel, e) && IsMigrationDir(e);
          ReachesInCons(children, rel, e);
          assert MigrationAt(children, rel);
        } else if m1 != m {
          var rel :| m1.value == here + rel && MigrationAt(c.children, rel);
          var e :| ReachesIn(c.children, rel, e) && IsMigrationDir(e);
          ReachesDown(c, rel, e);
          ReachesInCons(children, [c.name] + rel, e);
          assert r.value == at + ([c.name] + rel) && MigrationAt(children, [c.name] + rel);
        }
      }
    }
  }

  /** The file case of FoundIsMigration: the first entry is skipped. */
  lemma {:induction false} FoundBelowRest(children: seq<Entry>, at: Path, m: Option<Path>)
    requires children != [] && !children[0].isDir
    ensures var r := AfterChildren(children, at, m);
      r == m || (r.Some? && exists rel :: r.value == at + rel && MigrationAt(children, rel))
    decreases children, 0
  {
    var r := AfterChildren(children, at, m);
    FoundIsMigration(children[1..], at, m);
    if r != m {
      var rel :| r.value == at + rel && MigrationAt(children[1..], rel);
      var e :| ReachesIn(children[1..], rel, e) && IsMigrationDir(e);
      ReachesInCons(children, rel, e);
      assert MigrationAt(children, rel);
    }
  }

  /** The first `migration` folder listed directly in the directory is what the walk of that
      directory records, whatever was recorded before and whatever the subtrees listed before it
      hold; the entries after it and its own contents are never looked at. */
  lemma {:induction false} DirectChildWins(children: seq<Entry>, at: Path, m: Option<Path>, k: nat)
    requires k < |children| && IsMigrationDir(children[k])
    requires forall j :: 0 <= j < k ==> !IsMigrationDir(children[j])
    ensures AfterChildren(children, at, m) == Some(at + [MigrationName])
    decreases k
  {
    var c := children[0];
    if k > 0 {
      var m1 := if c.isDir then AfterChildren(c.children, at + [c.name], m) else m;
      DirectChildWins(children[1..], at, m1, k - 1);
    }
  }

  /** Listings that hold no `migration` folder directly are walked one after the other: the
      second continues from what the first recorded. */
  lemma {:induction false} WalkConcat(a: seq<Entry>, b: seq<Entry>, at: Path, m: Option<Path>)
    requires forall j :: 0 <= j < |a| ==> !IsMigrationDir(a[j])
    ensures AfterChildren(a + b, at, m) == AfterChildren(b, at, AfterChildren(a, at, m))
    decreases a
  {
    if a == [] {
      assert a + b == b;
    } else {
      assert (a + b)[0] == a[0];
      assert (a + b)[1..] == a[1..] + b;
      var c := a[0];
      var m1 := if c.isDir then AfterChildren(c.children, at + [c.name], m) else m;
      assert forall j :: 0 <= j < |a[1..]| ==> a[1..][j] == a[j + 1];
      assert !IsMigrationDir(a[0]);
      assert AfterChildren(a, at, m) == AfterChildren(a[1..], at, m1);
      assert AfterChildren(a + b, at, m) == AfterChildren(a[1..] + b, at, m1);
      WalkConcat(a[1..], b, at, m1);
    }
  }

  /** A later subtree's `migration` folder replaces an earlier subtree's: in a package holding
      `a/migration` and then `b/migration`, the walk records `b/migration`. */
  method LaterSubtreeWins() returns (found: Option<Path>)
    ensures found == Some(["pkg", "b", MigrationName])
  {
    var migration := Entry(MigrationName, true, []);
    var a := Entry("a", true, [migration]);
    var b := Entry("b", true, [migration]);
    var first := AfterChildren(a.children, ["pkg"] + [a.name], None);
    assert first == Some(["pkg"] + [a.name] + [MigrationName]);
    assert AfterChildren([a, b], ["pkg"], None) == AfterChildren([b], ["pkg"], first);
    assert AfterChildren([b], ["pkg"], first) == AfterChildren([], ["pkg"], AfterChildren(b.children, ["pkg"] + [b.name], first));
    assert ["pkg"] + [b.name] + [MigrationName] == ["pkg", "b", MigrationName];
    var pkg := new Package(["pkg"]);
    pkg.FindMigrations(Entry("pkg", true, [a, b]));
    found := pkg.migrations;
  }

  // ---------------------------------------------------------------------------
  // Project.__str__
  // ---------------------------------------------------------------------------

  /** A row of the packages table: the package name and its migrations cell. */
  datatype Row = Row(name: string, migrations: string)

  const Heading := Row("Name", "migrations")

  /** The migrations cell of a package: `str(m.relative_to(root))`, or "" when nothing was
      found. relative_to raises ValueError (None here) when `m` is not below `root`. */
  function MigrationCell(root: Path, m: Option<Path>): Option<string>
  {
    match m
    case None => Some("")
    case Some(p) =>
      match RelativeTo(p, root)
      case None => None
      case Some(rel) => Some(PathString(rel))
  }

  /** The name and the migration folder of every package of a project, in order. */
  ghost function Listing(pkgs: seq<Package>): (r: seq<(string, Option<Path>)>)
    reads set p | p in pkgs
    ensures |r| == |pkgs|
    ensures forall k :: 0 <= k < |pkgs| ==> r[k] == (Name(pkgs[k].path), pkgs[k].migrations)
  {
    if pkgs == [] then []
    else Listing(pkgs[..|pkgs| - 1]) + [(Name(pkgs[|pkgs| - 1].path), pkgs[|pkgs| - 1].migrations)]
  }

  /** The table __str__ builds for a project at `root` whose packages are `listing`: the heading,
      then one row per package, in order; None when a migrations cell cannot be made. */
  function TableOf(root: Path, listing: seq<(string, Option<Path>)>): (r: Option<seq<Row>>)
    ensures r.Some? <==> forall k :: 0 <= k < |listing| ==> MigrationCell(root, listing[k].1).Some?
    ensures r.Some? ==>
      && |r.value| == |listing| + 1
      && r.value[0] == Heading
      && forall k :: 0 <= k < |listing| ==>
           r.value[k + 1] == Row(listing[k].0, MigrationCell(root, listing[k].1).value)
  {
    if listing == [] then Some([Heading])
    else
      var last := listing[|listing| - 1];
      match TableOf(root, listing[..|listing| - 1])
      case None => None
      case Some(t) =>
        match MigrationCell(root, last.1)
        case None => None
        case Some(cell) => Some(t + [Row(last.0, cell)])
  }

  /** The widest of `least` and the lengths of `cells`. */
  function MaxLen(cells: seq<string>, least: nat): (w: nat)
    ensures least <= w
    ensures forall k :: 0 <= k < |cells| ==> |cells[k]| <= w
    ensures w == least || exists k :: 0 <= k < |cells| && |cells[k]| == w
  {
    if cells == [] then least
    else
      var w := MaxLen(cells[..|cells| - 1], least);
      if |cells[|cells| - 1]| > w then |cells[|cells| - 1]| else w
  }

  /** The name column of a table. */
  function Names(table: seq<Row>): (r: seq<string>)
    ensures |r| == |table| && forall k :: 0 <= k < |table| ==> r[k] == table[k].name
  {
    seq(|table|, k requires 0 <= k < |table| => table[k].name)
  }

  /** The migrations column of a table. */
  function Cells(table: seq<Row>): (r: seq<string>)
    ensures |r| == |table| && forall k :: 0 <= k < |table| ==> r[k] == table[k].migrations
  {
    seq(|table|, k requires 0 <= k < |table| => table[k].migrations)
  }

  /** Taking one more cell into the running maximum. */
  lemma MaxLenSnoc(cells: seq<string>, c: string, least: nat)
    ensures MaxLen(cells + [c], least) == if |c| > MaxLen(cells, least) then |c| else MaxLen(cells, least)
  {
    assert (cells + [c])[..|cells|] == cells;
  }

  /** The widths of one more row of the table. */
  lemma WidthsSnoc(table: seq<Row>, i: nat)
    requires i < |table|
    ensures MaxLen(Names(table[..i + 1]), 4)
         == if |table[i].name| > MaxLen(Names(table[..i]), 4) then |table[i].name| else MaxLen(Names(table[..i]), 4)
    ensures MaxLen(Cells(table[..i + 1]), 10)
         == if |table[i].migrations| > MaxLen(Cells(table[..i]), 10) then |table[i].migrations| else MaxLen(Cells(table[..i]), 10)
  {
    assert table[..i + 1] == table[..i] + [table[i]];
    ColumnsSnoc(table[..i], table[i]);
    MaxLenSnoc(Names(table[..i]), table[i].name, 4);
    MaxLenSnoc(Cells(table[..i]), table[i].migrations, 10);
  }

  lemma ColumnsSnoc(table: seq<Row>, row: Row)
    ensures Names(table + [row]) == Names(table) + [row.name]
    ensures Cells(table + [row]) == Cells(table) + [row.migrations]
  {
  }

  /** The column widths __str__ uses: at least 4 and 10, and wide enough for every cell. */
  method ColumnWidths(table: seq<Row>) returns (w1: nat, w2: nat)
    ensures w1 == MaxLen(Names(table), 4) && w2 == MaxLen(Cells(table), 10)
  {
    w1, w2 := 4, 10;
    var i := 0;
    while i < |table|
      invariant 0 <= i <= |table|
      invariant w1 == MaxLen(Names(table[..i]), 4) && w2 == MaxLen(Cells(table[..i]), 10)
    {
      WidthsSnoc(table, i);
      if |table[i].name| > w1 {
        w1 := |table[i].name|;
      }
      if |table[i].migrations| > w2 {
        w2 := |table[i].migrations|;
      }
      i := i + 1;
    }
    assert table[..i] == table;
  }

  /** The format string of __str__ applied to a row: each cell left-justified to its column
      width, between bars. */
  function FormatRow(row: Row, w1: nat, w2: nat): string
  {
    "| " + PadRight(row.name, w1) + " | " + PadRight(row.migrations, w2) + " |"
  }

  /** A row whose cells fit their widths has length w1 + w2 + 7 and reads back as `| `, the
      name, spaces up to width w1, ` | `, the migrations cell, spaces up to width w2, ` |`. */
  lemma FormatRowFields(row: Row, w1: nat, w2: nat)
    requires |row.name| <= w1 && |row.migrations| <= w2
    ensures var r := FormatRow(row, w1, w2);
      && |r| == w1 + w2 + 7
      && r[..2] == "| "
      && r[2..2 + |row.name|] == row.name && AllSpace(r[2 + |row.name|..2 + w1])
      && r[2 + w1..5 + w1] == " | "
      && r[5 + w1..5 + w1 + |row.migrations|] == row.migrations
      && AllSpace(r[5 + w1 + |row.migrations|..5 + w1 + w2])
      && r[5 + w1 + w2..] == " |"
  {
    var name := PadRight(row.name, w1);
    var cell := PadRight(row.migrations, w2);
    var r := FormatRow(row, w1, w2);
    assert r == "| " + name + " | " + cell + " |";
    assert r[2..2 + w1] == name;
    assert r[5 + w1..5 + w1 + w2] == cell;
  }

  /** The table rows, each formatted and ended by a newline, in order. */
  function RenderRows(table: seq<Row>, w1: nat, w2: nat): string
  {
    if table == [] then ""
    else FormatRow(table[0], w1, w2) + "\n" + RenderRows(table[1..], w1, w2)
  }

  /** The first two lines of __str__: the project name and its absolute path. */
  function Header(path: Path): string
  {
    "Project " + Name(path) + "\n\t" + Absolute(path) + "\n"
  }

  /** What __str__ returns for a project at `path` whose packages are `listing`: the header,
      and for a project with packages the table, with the column widths of its cells. */
  function Render(path: Path, listing: seq<(string, Option<Path>)>): Option<string>
  {
    if listing == [] then Some(Header(path))
    else
      match TableOf(path, listing)
      case None => None
      case Some(t) => Some(Header(path) + "Packages: \n" + RenderRows(t, MaxLen(Names(t), 4), MaxLen(Cells(t), 10)))
  }

  lemma FormatRowLength(row: Row, w1: nat, w2: nat)
    requires |row.name| <= w1 && |row.migrations| <= w2
    ensures |FormatRow(row, w1, w2)| == w1 + w2 + 7
  {
  }

  /** Rendered rows that fit their widths all have length w1 + w2 + 8 with the newline. */
  lemma {:induction false} RowsLength(table: seq<Row>, w1: nat, w2: nat)
    requires forall j :: 0 <= j < |table| ==> |table[j].name| <= w1 && |table[j].migrations| <= w2
    ensures |RenderRows(table, w1, w2)| == |table| * (w1 + w2 + 8)
  {
    if table != [] {
      var n := |table| - 1;
      var l := w1 + w2 + 8;
      FormatRowLength(table[0], w1, w2);
      RowsLength(table[1..], w1, w2);
      MulSucc(n, l);
    }
  }

  lemma Regroup(a: string, f: string, b: string)
    ensures a + (f + "\n" + b) == a + f + "\n" + b
  {
  }

  lemma RowsCons(table: seq<Row>, w1: nat, w2: nat)
    requires table != []
    ensures RenderRows(table, w1, w2) == FormatRow(table[0], w1, w2) + "\n" + RenderRows(table[1..], w1, w2)
  {
  }

  lemma RowsSingle(row: Row, w1: nat, w2: nat)
    ensures RenderRows([row], w1, w2) == FormatRow(row, w1, w2) + "\n"
  {
    assert [row][1..] == [];
  }

  lemma RowsSnoc(table: seq<Row>, j: nat, w1: nat, w2: nat)
    requires j < |table|
    ensures RenderRows(table[..j + 1], w1, w2) == RenderRows(table[..j], w1, w2) + FormatRow(table[j], w1, w2) + "\n"
  {
    assert table[..j + 1] == table[..j] + [table[j]];
    RowsConcat(table[..j], [table[j]], w1, w2);
    RowsSingle(table[j], w1, w2);
  }

  /** Rendering two tables one after the other renders their rows in order. */
  lemma {:induction false} RowsConcat(a: seq<Row>, b: seq<Row>, w1: nat, w2: nat)
    ensures RenderRows(a + b, w1, w2) == RenderRows(a, w1, w2) + RenderRows(b, w1, w2)
  {
    if a == [] {
      assert a + b == b;
    } else {
      assert (a + b)[1..] == a[1..] + b;
      RowsConcat(a[1..], b, w1, w2);
    }
  }

  /** Row `k` of the table is rendered after the rows before it and before the rows after it;
      with RowsLength, at offset k * (w1 + w2 + 8). */
  lemma RowAt(table: seq<Row>, w1: nat, w2: nat, k: nat)
    requires k < |table|
    ensures RenderRows(table, w1, w2)
         == RenderRows(table[..k], w1, w2) + FormatRow(table[k], w1, w2) + "\n" + RenderRows(table[k + 1..], w1, w2)
  {
    var rest := table[k..];
    assert table[..k] + rest == table;
    RowsConcat(table[..k], rest, w1, w2);
    RowsCons(rest, w1, w2);
    assert rest[0] == table[k] && rest[1..] == table[k + 1..];
    Regroup(RenderRows(table[..k], w1, w2), FormatRow(table[k], w1, w2), RenderRows(table[k + 1..], w1, w2));
  }

  lemma MulSucc(n: nat, l: nat)
    ensures (n + 1) * l == n * l + l
  {
  }

  /** The formatting half of __str__: the column widths, then every row padded to them. */
  method FormatTable(table: seq<Row>) returns (rows: string)
    ensures rows == RenderRows(table, MaxLen(Names(table), 4), MaxLen(Cells(table), 10))
  {
    var w1, w2 := ColumnWidths(table);
    rows := "";
    var j := 0;
    while j < |table|
      invariant 0 <= j <= |table|
      invariant rows == RenderRows(table[..j], w1, w2)
    {
      RowsSnoc(table, j, w1, w2);
      rows := rows + FormatRow(table[j], w1, w2) + "\n";
      j := j + 1;
    }
    assert table[..j] == table;
  }

  /** Every cell of a table fits the column widths __str__ computes for it. */
  lemma TableFits(t: seq<Row>)
    ensures forall j :: 0 <= j < |t| ==> |t[j].name| <= MaxLen(Names(t), 4) && |t[j].migrations| <= MaxLen(Cells(t), 10)
  {
    assert forall j :: 0 <= j < |t| ==> Names(t)[j] == t[j].name && Cells(t)[j] == t[j].migrations;
  }

  class Project {
    var path: Path
    var packages: seq<Package>

    constructor (path: Path)
      ensures this.path == path && packages == []
    {
      this.path := path;
      packages := [];
    }

    /** The table __str__ builds: the heading and a row per package, in order; None where
        relative_to would raise. */
    method Table() returns (t: Option<seq<Row>>)
      ensures t == TableOf(path, Listing(packages))
    {
      var table := [Heading];
      var i := 0;
      while i < |packages|
        invariant 0 <= i <= |packages|
        invariant |table| == i + 1 && table[0] == Heading
        invariant forall k :: 0 <= k < i ==>
          MigrationCell(path, packages[k].migrations).Some? &&
          table[k + 1] == Row(Name(packages[k].path), MigrationCell(path, packages[k].migrations).value)
      {
        var pkg := packages[i];
        var cell := "";
        if pkg.migrations.Some? {
          var rel := RelativeTo(pkg.migrations.value, path);
          if rel.None? {
            assert MigrationCell(path, Listing(packages)[i].1).None?;
            return None;
          }
          cell := PathString(rel.value);
        }
        table := table + [Row(Name(pkg.path), cell)];
        i := i + 1;
      }
      ghost var listing := Listing(packages);
      assert forall k :: 0 <= k < |listing| ==> MigrationCell(path, listing[k].1).Some?;
      ghost var expected := TableOf(path, listing).value;
      forall j | 1 <= j < |expected|
        ensures expected[j] == table[j]
      {
        var k := j - 1;
        assert listing[k] == (Name(packages[k].path), packages[k].migrations);
        assert expected[k + 1] == table[k + 1];
      }
      assert expected == table;
      return Some(table);
    }

    /** __str__: the header, then, when the project has packages, the table of their names and
        migration folders relative to the project; None where relative_to would raise. */
    method Str() returns (r: Option<string>)
      ensures r == Render(path, Listing(packages))
    {
      var out := "Project " + Name(path) + "\n\t" + Absolute(path) + "\n";
      if |packages| > 0 {
        var table := Table();
        if table.None? {
          return None;
        }
        var rows := FormatTable(table.value);
        out := out + "Packages: \n" + rows;
      }
      return Some(out);
    }
  }

  // ---------------------------------------------------------------------------
  // analyze
  // ---------------------------------------------------------------------------

  const SetupName := "setup.py"

  /** The entries of a listing that analyze takes as packages: the subdirectories holding an
      entry named `setup.py`, in listing order. */
  function PackageDirs(children: seq<Entry>): seq<Entry>
  {
    if children == [] then []
    else
      (if children[0].isDir && HasChildNamed(children[0], SetupName) then [children[0]] else [])
      + PackageDirs(children[1..])
  }

  /** The packages are exactly the subdirectories of the listing that hold a `setup.py`. */
  lemma {:induction false} PackageDirsMember(children: seq<Entry>, e: Entry)
    ensures e in PackageDirs(children) <==> e in children && e.isDir && HasChildNamed(e, SetupName)
  {
    if children != [] {
      PackageDirsMember(children[1..], e);
      assert children == [children[0]] + children[1..];
    }
  }

  /** The packages keep the listing order: those of a longer listing come after those of its start. */
  lemma {:induction false} PackageDirsConcat(a: seq<Entry>, b: seq<Entry>)
    ensures PackageDirs(a + b) == PackageDirs(a) + PackageDirs(b)
  {
    if a == [] {
      assert a + b == b;
    } else {
      assert (a + b)[0] == a[0];
      assert (a + b)[1..] == a[1..] + b;
      PackageDirsConcat(a[1..], b);
    }
  }

  lemma PackageDirsSnoc(children: seq<Entry>, i: nat)
    requires i < |children|
    ensures PackageDirs(children[..i + 1]) == PackageDirs(children[..i]) + PackageDirs([children[i]])
  {
    assert children[..i + 1] == children[..i] + [children[i]];
    PackageDirsConcat(children[..i], [children[i]]);
  }

  /** The names and migration folders of the packages analyze makes for `dirs` in `folder`. */
  function Listed(folder: Path, dirs: seq<Entry>): (r: seq<(string, Option<Path>)>)
    ensures |r| == |dirs|
  {
    seq(|dirs|, k requires 0 <= k < |dirs| => (dirs[k].name, AfterSearch(dirs[k], folder + [dirs[k].name], None)))
  }

  /** analyze(folder) for the entry `found` at `folder` (None when the folder does not exist):
      no project unless it is a directory; otherwise a project whose packages are made, in
      listing order, from the subdirectories holding a `setup.py`, each with the migration
      folder find_migrations records for it. */
  method Analyze(folder: Path, found: Option<Entry>) returns (r: Option<Project>)
    ensures r.Some? <==> found.Some? && found.value.isDir
    ensures r.Some? ==>
      var dirs := PackageDirs(found.value.children);
      && fresh(r.value) && r.value.path == folder
      && |r.value.packages| == |dirs|
      && (forall k :: 0 <= k < |dirs| ==> r.value.packages[k].path == folder + [dirs[k].name])
      && Listing(r.value.packages) == Listed(folder, dirs)
  {
    if found.None? || !found.value.isDir {
      return None;
    }
    var project := new Project(folder);
    var children := found.value.children;
    var i := 0;
    while i < |children|
      invariant 0 <= i <= |children|
      invariant project.path == folder
      invariant var dirs := PackageDirs(children[..i]);
        && |project.packages| == |dirs|
        && forall k :: 0 <= k < |dirs| ==>
             && project.packages[k].path == folder + [dirs[k].name]
             && project.packages[k].migrations == AfterSearch(dirs[k], folder + [dirs[k].name], None)
    {
      var sub := children[i];
      PackageDirsSnoc(children, i);
      if sub.isDir && HasChildNamed(sub, SetupName) {
        assert PackageDirs([sub]) == [sub];
        var p := new Package(folder + [sub.name]);
        p.FindMigrations(sub);
        project.packages := project.packages + [p];
      } else {
        assert PackageDirs([sub]) == [];
      }
      i := i + 1;
    }
    assert children[..i] == children;
    ghost var dirs := PackageDirs(children);
    ghost var listing := Listing(project.packages);
    forall k | 0 <= k < |dirs|
      ensures listing[k] == Listed(folder, dirs)[k]
    {
      assert Name(folder + [dirs[k].name]) == dirs[k].name;
    }
    return Some(project);
  }

  /** A project analyze makes always renders: every migration folder it records lies below
      the project folder, so relative_to never raises. */
  lemma AnalyzedProjectRenders(folder: Path, dirs: seq<Entry>)
    ensures Render(folder, Listed(folder, dirs)).Some?
  {
    var listing := Listed(folder, dirs);
    forall k | 0 <= k < |listing|
      ensures MigrationCell(folder, listing[k].1).Some?
    {
      var at := folder + [dirs[k].name];
      if dirs[k].isDir {
        FoundIsMigration(dirs[k].children, at, None);
        var m := AfterChildren(dirs[k].children, at, None);
        if m.Some? {
          var rel :| m.value == at + rel && MigrationAt(dirs[k].children, rel);
          RelativeToJoin(folder, [dirs[k].name] + rel);
          assert m.value == folder + ([dirs[k].name] + rel);
        }
      }
    }
  }
}
