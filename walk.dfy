/** The directory traversal the three walk scripts share. `os.walk` itself is
    not modelled: a walk is given as the sequence of directories it yields,
    each with the names of its files, in the order the loops visit them. */
module Walk {

  /** One `(dirpath, dirnames, files)` triple of `os.walk`, without the dirnames. */
  datatype WalkDir = WalkDir(dirpath: string, files: seq<string>)

  /** One file visited by `for dirpath, _, files in os.walk('.')` / `for f in files`. */
  datatype Entry = Entry(dirpath: string, name: string)

  function DirEntries(d: WalkDir): seq<Entry>
  {
    seq(|d.files|, i requires 0 <= i < |d.files| => Entry(d.dirpath, d.files[i]))
  }

  /** Every file of the walk, in visiting order. */
  function Entries(walk: seq<WalkDir>): seq<Entry>
  {
    if walk == [] then [] else Entries(walk[..|walk| - 1]) + DirEntries(walk[|walk| - 1])
  }

  /** The visiting order as the nested loops see it: all files of the first i
      directories, then the first j files of directory i. */
  lemma VisitStep(walk: seq<WalkDir>, i: nat, j: nat)
    requires i < |walk| && j < |walk[i].files|
    ensures Entries(walk[..i]) + DirEntries(walk[i])[..j + 1]
         == (Entries(walk[..i]) + DirEntries(walk[i])[..j]) + [Entry(walk[i].dirpath, walk[i].files[j])]
  {
    assert DirEntries(walk[i])[..j + 1] == DirEntries(walk[i])[..j] + [Entry(walk[i].dirpath, walk[i].files[j])];
  }

  lemma DirDone(walk: seq<WalkDir>, i: nat)
    requires i < |walk|
    ensures Entries(walk[..i + 1]) == Entries(walk[..i]) + DirEntries(walk[i])[..|walk[i].files|]
  {
    assert walk[..i + 1][..i] == walk[..i];
    assert DirEntries(walk[i])[..|walk[i].files|] == DirEntries(walk[i]);
  }
}
