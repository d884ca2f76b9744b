/** File names of the backup chain (FileStore.prototype.filePath in index.js). */
module Paths {

  /** The character JavaScript prints for the decimal digit `d`. */
  function Digit(d: nat): (c: char)
    requires d < 10
    ensures c as int == '0' as int + d
  {
    ('0' as int + d) as char
  }

  /** The text JavaScript produces when it concatenates a non-negative integer below 10^21
      into a string. From 10^21 on JavaScript prints exponent notation ("1e+21"), which
      this function does not model. */
  function Decimal(n: nat): (s: string)
    ensures 1 <= |s|
    ensures n < 10 <==> |s| == 1
    ensures forall i :: 0 <= i < |s| ==> '0' <= s[i] <= '9'
    ensures s[|s| - 1] == Digit(n % 10)
  {
    if n < 10 then [Digit(n)] else Decimal(n / 10) + [Digit(n % 10)]
  }

  /** Different numbers print differently, so backup names never collide. */
  lemma {:induction false} DecimalInjective(a: nat, b: nat)
    requires Decimal(a) == Decimal(b)
    ensures a == b
    decreases a
  {
    if 10 <= a {
      var sa, sb := Decimal(a), Decimal(b);
      assert 10 <= b;
      assert sa[..|sa| - 1] == Decimal(a / 10);
      assert sb[..|sb| - 1] == Decimal(b / 10);
      DecimalInjective(a / 10, b / 10);
      assert a % 10 == b % 10;
    }
  }

  /** filePath(retries): the base path for 0, `base.(retries-1).bak` otherwise. */
  function FilePath(base: string, retries: nat): (p: string)
    ensures retries == 0 ==> p == base
    ensures retries > 0 ==> |base| + 5 < |p| && p[..|base|] == base && p[|base|] == '.' && p[|p| - 4..] == ".bak"
    ensures retries > 0 ==> p[|base| + 1..|p| - 4] == Decimal(retries - 1)
  {
    if retries == 0 then base else base + "." + Decimal(retries - 1) + ".bak"
  }

  /** The staging file written before the rename onto the primary. */
  function TmpPath(base: string): (p: string)
    ensures |p| == |base| + 4 && p[..|base|] == base && p[|base|..] == ".tmp"
  {
    base + ".tmp"
  }

  /** Distinct chain indices name distinct files, so the chain can be modelled by index. */
  lemma FilePathInjective(base: string, i: nat, j: nat)
    requires i != j
    ensures FilePath(base, i) != FilePath(base, j)
  {
    if 0 < i && 0 < j {
      BackupPathsDiffer(base, i, j);
    } else if i == 0 {
      BackupPathIsNotPrimary(base, j);
    } else {
      BackupPathIsNotPrimary(base, i);
    }
  }

  /** A backup name is longer than the base path, so it is never the primary. */
  lemma BackupPathIsNotPrimary(base: string, k: nat)
    requires 0 < k
    ensures FilePath(base, 0) != FilePath(base, k)
  {
    assert |FilePath(base, 0)| < |FilePath(base, k)|;
  }

  /** Two backup names with different numbers differ in their numeric part. */
  lemma BackupPathsDiffer(base: string, a: nat, b: nat)
    requires 0 < a && 0 < b && a != b
    ensures FilePath(base, a) != FilePath(base, b)
  {
    var p, q := FilePath(base, a), FilePath(base, b);
    if Decimal(a - 1) == Decimal(b - 1) {
      DecimalInjective(a - 1, b - 1);
    }
    assert p[|base| + 1..|p| - 4] != q[|base| + 1..|q| - 4];
  }

  /** The staging file is never one of the chain files. */
  lemma TmpPathNotInChain(base: string, i: nat)
    ensures TmpPath(base) != FilePath(base, i)
  {
    var t, p := TmpPath(base), FilePath(base, i);
    assert t[|t| - 1] == 'p' by {
      assert t[|base|..] == ".tmp";
    }
    if 0 < i {
      assert p[|p| - 1] == 'k' by {
        assert p[|p| - 4..] == ".bak";
      }
    }
  }
}
