/**
 * Versioned file names of `gerar_kml_versionado`: every export goes to
 * `pins/terremotos_NNN.kml`, where NNN is the least positive number whose
 * file is not already in the folder. The folder is modelled by the set of
 * names it holds.
 */
module Versioning {
  import opened Wrappers
  import opened Decimal

  /** `PASTA_PINS`, the output folder. */
  const Folder: string := "pins"
  const NamePrefix: string := "terremotos_"
  const NameSuffix: string := ".kml"

  /** The file name for suffix `n`, zero-padded to three digits. */
  function FileName(n: nat): string {
    NamePrefix + Pad3(n) + NameSuffix
  }

  /** `os.path.join(PASTA_PINS, ...)` with the POSIX separator. */
  function PathOf(n: nat): string {
    Folder + "/" + FileName(n)
  }

  /** Reads the suffix back out of an export's file name. */
  function NumberInFileName(name: string): Option<nat>
  {
    if |name| >= |NamePrefix| + 3 + |NameSuffix|
       && name[..|NamePrefix|] == NamePrefix
       && name[|name| - |NameSuffix|..] == NameSuffix
       && IsDigits(name[|NamePrefix|..|name| - |NameSuffix|])
    then Some(Parse(name[|NamePrefix|..|name| - |NameSuffix|]))
    else None
  }

  /** Every export name reads back as its own suffix. */
  lemma FileNameRoundTrip(n: nat)
    ensures NumberInFileName(FileName(n)) == Some(n)
  {
    var name := FileName(n);
    var digits := Pad3(n);
    assert name[..|NamePrefix|] == NamePrefix;
    assert name[|name| - |NameSuffix|..] == NameSuffix;
    assert name[|NamePrefix|..|name| - |NameSuffix|] == digits;
  }

  /** Distinct suffixes never share a file. */
  lemma FileNameInjective(a: nat, b: nat)
    requires FileName(a) == FileName(b)
    ensures a == b
  {
    FileNameRoundTrip(a);
    FileNameRoundTrip(b);
  }

  /**
   * `n` is the number the scan settles on: positive, its file is absent,
   * and the files of every smaller positive number are present.
   */
  predicate IsFirstFree(dir: set<string>, n: int) {
    && n >= 1
    && FileName(n) !in dir
    && forall k :: 1 <= k < n ==> FileName(k) in dir
  }

  function NamesBelow(n: nat): set<string> {
    set k | 1 <= k < n :: FileName(k)
  }

  /** The names of suffixes 1 .. n-1 are n-1 different names. */
  lemma {:induction false} NamesBelowSize(n: nat)
    requires n >= 1
    ensures |NamesBelow(n)| == n - 1
  {
    if n > 1 {
      NamesBelowSize(n - 1);
      assert NamesBelow(n) == NamesBelow(n - 1) + {FileName(n - 1)};
      if FileName(n - 1) in NamesBelow(n - 1) {
        var k :| 1 <= k < n - 1 && FileName(k) == FileName(n - 1);
        FileNameInjective(k, n - 1);
      }
    }
  }

  /** A folder holding the files of 1 .. n-1 holds at least n-1 files. */
  lemma FullPrefixBound(dir: set<string>, n: nat)
    requires n >= 1
    requires forall k :: 1 <= k < n ==> FileName(k) in dir
    ensures n - 1 <= |dir|
  {
    NamesBelowSize(n);
    forall name | name in NamesBelow(n) ensures name in dir {
      var k :| 1 <= k < n && name == FileName(k);
    }
    assert dir == NamesBelow(n) + (dir - NamesBelow(n));
  }

  /**
   * The scan of main.py:26-31: try 1, 2, 3, ... until a file name is free.
   * It stops because the folder holds finitely many names.
   */
  method NextSuffix(dir: set<string>) returns (n: nat)
    ensures IsFirstFree(dir, n)
    ensures n <= |dir| + 1
  {
    n := 1;
    while FileName(n) in dir
      invariant n >= 1
      invariant forall k :: 1 <= k < n ==> FileName(k) in dir
      invariant n - 1 <= |dir|
      decreases |dir| - (n - 1)
    {
      FullPrefixBound(dir, n + 1);
      n := n + 1;
    }
  }

  /** An empty folder gets suffix 1. */
  lemma EmptyFolderGetsOne()
    ensures IsFirstFree({}, 1)
  {
  }

  /** A folder holding the files for 1 and 2 gets suffix 3. */
  lemma AfterTwoGetsThree()
    ensures IsFirstFree({FileName(1), FileName(2)}, 3)
  {
    if FileName(3) == FileName(1) { FileNameInjective(3, 1); }
    if FileName(3) == FileName(2) { FileNameInjective(3, 2); }
  }

  /** A gap left by a deleted file is filled again, even when later files remain. */
  lemma GapIsBackfilled(dir: set<string>)
    requires FileName(1) !in dir && FileName(2) in dir
    ensures IsFirstFree(dir, 1)
  {
  }
}
