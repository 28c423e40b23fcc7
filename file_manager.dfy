/**
 * `EcgFileManager` (Services/EcgFileManager.cs): a fixed list of recording
 * paths and a current position in it that the next / previous / select
 * operations move, each with a guard that keeps it inside the list.
 */
module FileManager {
  import opened Options

  // ------------------------------------------------------------ file names

  /** The position of the last occurrence of c in s, or -1. */
  function LastIndexOf(s: string, c: char): (k: int)
    ensures -1 <= k < |s|
    ensures k >= 0 ==> s[k] == c
    ensures forall j :: k < j < |s| ==> s[j] != c
  {
    if |s| == 0 then -1
    else if s[|s| - 1] == c then |s| - 1
    else LastIndexOf(s[..|s| - 1], c)
  }

  /** `Path.GetFileName` with '/' as the directory separator: the text after the last separator. */
  function FileName(path: string): (name: string)
    ensures '/' !in name
    ensures |name| <= |path| && name == path[|path| - |name|..]
    ensures |name| < |path| ==> path[|path| - |name| - 1] == '/'
  {
    path[LastIndexOf(path, '/') + 1..]
  }

  /** `Path.GetFileNameWithoutExtension`: the file name cut at its last '.', if it has one. */
  function Stem(path: string): (r: string)
    ensures '/' !in r
  {
    var name := FileName(path);
    var dot := LastIndexOf(name, '.');
    if dot < 0 then name else name[..dot]
  }

  /** The last occurrence of c is the one followed by no other c. */
  lemma LastIndexOfAt(a: string, c: char, b: string)
    requires c !in b
    ensures LastIndexOf(a + [c] + b, c) == |a|
  {
    var s := a + [c] + b;
    assert s[|a|] == c;
  }

  /** The name shown for "dir/base.ext" is base, whatever the directory and extension, when base has no '/' and ext has neither '/' nor '.'. */
  lemma StemOfPath(dir: string, base: string, ext: string)
    requires '/' !in base && '/' !in ext && '.' !in ext
    ensures Stem(dir + "/" + base + "." + ext) == base
  {
    var path := dir + "/" + base + "." + ext;
    assert path == dir + ['/'] + (base + "." + ext);
    LastIndexOfAt(dir, '/', base + "." + ext);
    var name := FileName(path);
    assert name == base + "." + ext;
    assert name == base + ['.'] + ext;
    LastIndexOfAt(base, '.', ext);
  }

  // ------------------------------------------------------------ navigation

  /** The index invariant: inside the list when it is non-empty, 0 when it is empty. */
  predicate IndexInvariant(i: int, count: nat) {
    if count > 0 then 0 <= i < count else i == 0
  }

  /** `NextFile`: one step forward unless already at the last file. */
  function NextIndex(i: int, count: nat): int {
    if i < count - 1 then i + 1 else i
  }

  /** `PreviousFile`: one step back unless already at the first file. */
  function PreviousIndex(i: int): int {
    if i > 0 then i - 1 else i
  }

  /** `SetCurrentFileIndex(j)`: j if it is a position in the list, otherwise no change. */
  function SelectIndex(i: int, count: nat, j: int): int {
    if 0 <= j < count then j else i
  }

  /** Every navigation step keeps the invariant, and on an empty list each one leaves the index at 0. */
  lemma NavigationKeepsInvariant(i: int, count: nat, j: int)
    requires IndexInvariant(i, count)
    ensures IndexInvariant(NextIndex(i, count), count)
    ensures IndexInvariant(PreviousIndex(i), count)
    ensures IndexInvariant(SelectIndex(i, count, j), count)
    ensures count == 0 ==> NextIndex(i, count) == PreviousIndex(i) == SelectIndex(i, count, j) == 0
  {
  }

  /** Next then previous, or previous then next, returns to the start whenever the first step moved. */
  lemma NextPreviousInverse(i: int, count: nat)
    requires IndexInvariant(i, count)
    ensures NextIndex(i, count) != i ==> PreviousIndex(NextIndex(i, count)) == i
    ensures PreviousIndex(i) != i ==> NextIndex(PreviousIndex(i), count) == i
  {
  }

  /** The index after k calls of `NextFile`. */
  function NextTimes(i: int, count: nat, k: nat): int {
    if k == 0 then i else NextIndex(NextTimes(i, count, k - 1), count)
  }

  /** The index after k calls of `PreviousFile`. */
  function PreviousTimes(i: int, k: nat): int {
    if k == 0 then i else PreviousIndex(PreviousTimes(i, k - 1))
  }

  /** k calls of `NextFile` move k files forward but stop at the last file. */
  lemma {:induction false} NextTimesSaturates(i: int, count: nat, k: nat)
    requires count > 0 && IndexInvariant(i, count)
    ensures NextTimes(i, count, k) == if i + k < count - 1 then i + k else count - 1
  {
    if k > 0 {
      NextTimesSaturates(i, count, k - 1);
    }
  }

  /** k calls of `PreviousFile` move k files back but stop at the first file. */
  lemma {:induction false} PreviousTimesSaturates(i: int, k: nat)
    requires i >= 0
    ensures PreviousTimes(i, k) == if i - k > 0 then i - k else 0
  {
    if k > 0 {
      PreviousTimesSaturates(i, k - 1);
    }
  }

  // ------------------------------------------------------------- the class

  class EcgFileManager {
    /** The recordings found at construction; nothing assigns it afterwards. */
    const ecgFiles: seq<string>
    var currentFileIndex: int

    ghost predicate Valid()
      reads this
    {
      IndexInvariant(currentFileIndex, |ecgFiles|)
    }

    /** The directory listing is a parameter: None when the directory does not exist. */
    constructor (listing: Option<seq<string>>)
      ensures ecgFiles == (if listing.Some? then listing.value else [])
      ensures currentFileIndex == 0
      ensures Valid()
    {
      ecgFiles := if listing.Some? then listing.value else [];
      currentFileIndex := 0;
    }

    /** True exactly when `NextFile` would move the index. */
    function HasNextFile(): (b: bool)
      reads this
      ensures b <==> NextIndex(currentFileIndex, |ecgFiles|) != currentFileIndex
    {
      currentFileIndex < |ecgFiles| - 1
    }

    /** True exactly when `PreviousFile` would move the index. */
    function HasPreviousFile(): (b: bool)
      reads this
      ensures b <==> PreviousIndex(currentFileIndex) != currentFileIndex
    {
      currentFileIndex > 0
    }

    /** "No File" for an empty list, otherwise the current recording's name without directory or extension. */
    function CurrentFileName(): (name: string)
      reads this
      requires Valid()
      ensures |ecgFiles| == 0 ==> name == "No File"
      ensures |ecgFiles| > 0 ==> name == Stem(ecgFiles[currentFileIndex])
    {
      if |ecgFiles| > 0 then Stem(ecgFiles[currentFileIndex]) else "No File"
    }

    method NextFile()
      requires Valid()
      modifies this`currentFileIndex
      ensures Valid()
      ensures currentFileIndex == NextIndex(old(currentFileIndex), |ecgFiles|)
    {
      if HasNextFile() {
        currentFileIndex := currentFileIndex + 1;
      }
    }

    method PreviousFile()
      requires Valid()
      modifies this`currentFileIndex
      ensures Valid()
      ensures currentFileIndex == PreviousIndex(old(currentFileIndex))
    {
      if HasPreviousFile() {
        currentFileIndex := currentFileIndex - 1;
      }
    }

    method SetCurrentFileIndex(index: int)
      requires Valid()
      modifies this`currentFileIndex
      ensures Valid()
      ensures currentFileIndex == SelectIndex(old(currentFileIndex), |ecgFiles|, index)
    {
      if index >= 0 && index < |ecgFiles| {
        currentFileIndex := index;
      }
    }
  }
}
