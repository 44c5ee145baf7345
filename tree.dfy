/**
  An abstract file system. A path is the sequence of its components; a directory
  entry records its name, whether it is a directory, and, for a directory, the
  entries that `iterdir()` lists in it, in listing order.
 */
module Tree {
  import opened Wrappers
  import opened Strings

  type Path = seq<string>

  datatype Entry = Entry(name: string, isDir: bool, children: seq<Entry>)

  /** `Path.name`: the last component, or "" for the empty path. */
  function Name(p: Path): string
  {
    if p == [] then "" else p[|p| - 1]
  }

  /** `dir / name` exists: some entry listed in `dir` has that name. */
  predicate HasChildNamed(dir: Entry, name: string)
  {
    exists k :: 0 <= k < |dir.children| && dir.children[k].name == name
  }

  /** The relative path `rel` leads from a directory listing `children` to the entry `e`:
      it leads there from one of the listed entries. */
  ghost predicate ReachesIn(children: seq<Entry>, rel: Path, e: Entry)
    decreases rel, 1
  {
    exists k :: 0 <= k < |children| && ReachesFrom(children[k], rel, e)
  }

  /** `rel` leads from the listed entry `c` to `e`: its first component is `c`'s name, and
      either that is all of it and `c` is `e`, or `c` is a directory and the rest leads on. */
  ghost predicate ReachesFrom(c: Entry, rel: Path, e: Entry)
    decreases rel, 0
  {
    && |rel| >= 1
    && c.name == rel[0]
    && if |rel| == 1 then c == e else c.isDir && ReachesIn(c.children, rel[1..], e)
  }

  /** A listing reaches what its first entry reaches and what the others reach. */
  lemma ReachesInCons(children: seq<Entry>, rel: Path, e: Entry)
    requires children != []
    ensures ReachesIn(children, rel, e) <==> ReachesFrom(children[0], rel, e) || ReachesIn(children[1..], rel, e)
  {
    if ReachesIn(children, rel, e) {
      var k :| 0 <= k < |children| && ReachesFrom(children[k], rel, e);
      if k > 0 {
        assert children[1..][k - 1] == children[k];
      }
    }
    if ReachesIn(children[1..], rel, e) {
      var k :| 0 <= k < |children[1..]| && ReachesFrom(children[1..][k], rel, e);
      assert children[k + 1] == children[1..][k];
    }
  }

  /** What a directory's listing reaches, the directory reaches one level further up. */
  lemma ReachesDown(c: Entry, rel: Path, e: Entry)
    requires c.isDir && ReachesIn(c.children, rel, e)
    ensures ReachesFrom(c, [c.name] + rel, e)
  {
    var k :| 0 <= k < |c.children| && ReachesFrom(c.children[k], rel, e);
    assert ([c.name] + rel)[1..] == rel;
  }

  /** `Path.suffixes` (Python 3.10 to 3.12): nothing for a name that ends with a dot; otherwise
      the leading dots are dropped and every dot-separated piece after the first is a suffix. */
  function Suffixes(name: string): (r: seq<string>)
    ensures forall k :: 0 <= k < |r| ==> r[k] != [] && r[k][0] == '.'
  {
    if EndsWith(name, ".") then []
    else
      var pieces := Split(LStrip(name, '.'), ".");
      Dotted(pieces[1..])
  }

  /** Each piece with a dot put in front. */
  function Dotted(pieces: seq<string>): (r: seq<string>)
    ensures |r| == |pieces|
    ensures forall k :: 0 <= k < |r| ==> r[k] == "." + pieces[k]
  {
    if pieces == [] then [] else ["." + pieces[0]] + Dotted(pieces[1..])
  }

  /** `file.relative_to(root)`: the rest of the path when `root` is a prefix of it. */
  function RelativeTo(file: Path, root: Path): (r: Option<Path>)
    ensures r.Some? <==> |root| <= |file| && file[..|root|] == root
    ensures r.Some? ==> root + r.value == file
  {
    if |root| <= |file| && file[..|root|] == root then Some(file[|root|..]) else None
  }

  /** relative_to undoes joining onto the root. */
  lemma RelativeToJoin(root: Path, rel: Path)
    ensures RelativeTo(root + rel, root) == Some(rel)
  {
    assert (root + rel)[..|root|] == root;
  }

  /** `str(p)` for a relative path: its components joined by "/", or "." for the empty path. */
  function PathString(p: Path): string
  {
    if p == [] then "." else Join(p, "/")
  }

  /** `p.absolute()` for an absolute path `p` given by its components below the root. */
  function Absolute(p: Path): string
  {
    "/" + Join(p, "/")
  }
}
