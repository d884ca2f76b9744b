/** The files of one store as an abstract map from chain slot to contents, and the
    disk-side half of a write: staging, backup rotation (removeBackup in index.js) and
    the install of the staged file as the primary. */
module Disk {
  import Paths

  /** A file the store may touch. Chain(0) is the primary, Chain(k) for k >= 1 is backup
      `base.(k-1).bak`, and Tmp is the staging file `base.tmp`; SlotPath names them. */
  datatype Slot = Chain(index: nat) | Tmp

  /** The file name of a slot for the base path `base`. */
  function SlotPath(base: string, s: Slot): string {
    match s
    case Chain(k) => Paths.FilePath(base, k)
    case Tmp => Paths.TmpPath(base)
  }

  /** Distinct slots are distinct files, so a map keyed by Slot stands for the directory. */
  lemma SlotPathInjective(base: string, s: Slot, t: Slot)
    requires s != t
    ensures SlotPath(base, s) != SlotPath(base, t)
  {
    match (s, t)
    case (Chain(i), Chain(j)) => Paths.FilePathInjective(base, i, j);
    case (Chain(i), Tmp) => Paths.TmpPathNotInChain(base, i);
    case (Tmp, Chain(j)) => Paths.TmpPathNotInChain(base, j);
  }

  /** Which of the store's files exist, and what text each holds. */
  type FileSystem = map<Slot, string>

  function Min(a: int, b: int): int {
    if a <= b then a else b
  }

  /** Slot `s` is the same in `a` and `b`: present in both with the same text, or in neither. */
  predicate SameAt(a: FileSystem, b: FileSystem, s: Slot) {
    (s in a <==> s in b) && (s in a ==> a[s] == b[s])
  }

  /** fs.rename: `to` is replaced by the contents of `from`, and `from` disappears. */
  function Rename(fs: FileSystem, from: Slot, to: Slot): (r: FileSystem)
    requires from in fs && from != to
    ensures to in r && r[to] == fs[from] && from !in r
    ensures forall s | s != from && s != to :: SameAt(fs, r, s)
  {
    fs[to := fs[from]] - {from}
  }

  /** `s` lies outside the part of the chain a walk starting at index `k` can touch:
      the staging file, or a chain slot before `k`. */
  predicate Before(s: Slot, k: nat) {
    s.Tmp? || s.index < k
  }

  /** The outcome of a rotation: the resulting files, and whether the error handed to
      the final callback was set. */
  datatype Rotation = Rotation(fs: FileSystem, failed: bool)

  /** removeBackup(retries, next) run to completion (index.js:117-134). An absent slot
      ends the walk; the slot at `maxBackups` is unlinked; any other present slot first
      lets the deeper walk finish, then is renamed one index down. `faults` names the
      indices whose rename or unlink fails: a failing operation leaves the files as they
      were and hands its error on, but the callback wrapped around a deeper walk drops
      that walk's error, so only the operation on `retries` itself can report one. */
  function RemoveBackup(fs: FileSystem, retries: nat, maxBackups: nat, faults: set<nat>): (r: Rotation)
    requires retries <= maxBackups
    ensures forall s | s in r.fs && s !in fs :: s.Chain? && retries < s.index <= maxBackups
    ensures forall s | Before(s, retries) :: SameAt(fs, r.fs, s)
    ensures retries !in faults ==> Chain(retries) !in r.fs
    ensures r.failed <==> retries in faults && Chain(retries) in fs
    decreases maxBackups - retries
  {
    var here := Chain(retries);
    if here !in fs then
      Rotation(fs, false)
    else if retries == maxBackups then
      if retries in faults then Rotation(fs, true) else Rotation(fs - {here}, false)
    else
      var deeper := RemoveBackup(fs, retries + 1, maxBackups, faults);
      assert SameAt(fs, deeper.fs, here);
      if retries in faults then Rotation(deeper.fs, true)
      else
        var renamed := Rename(deeper.fs, here, Chain(retries + 1));
        assert forall s | Before(s, retries) :: SameAt(fs, deeper.fs, s) && SameAt(deeper.fs, renamed, s);
        Rotation(renamed, false)
  }

  /** `end` is where the contiguous run of present chain slots starting at `lo` stops:
      every slot in `lo..end-1` exists, and `end` is either a missing slot or one past
      `maxBackups`. */
  ghost predicate RunFrom(fs: FileSystem, lo: nat, end: nat, maxBackups: nat) {
    && lo <= end <= maxBackups + 1
    && (forall i: nat | lo <= i < end :: Chain(i) in fs)
    && (end <= maxBackups ==> Chain(end) !in fs)
  }

  /** Chain slots `lo..hi` are the ones a shift from `lo` to `hi` rewrites. */
  predicate Moved(s: Slot, lo: nat, hi: nat) {
    s.Chain? && lo <= s.index <= hi
  }

  /** The file at `before[Chain(j)]` now sits one index further down, at `after[Chain(j + 1)]`. */
  ghost predicate MovedDown(before: FileSystem, after: FileSystem, j: nat) {
    Chain(j) in before && Chain(j + 1) in after && after[Chain(j + 1)] == before[Chain(j)]
  }

  /** `after` is `before` with slots `lo..hi-1` shifted one index down the chain into
      `lo+1..hi`, slot `lo` vacated, and every other file exactly as it was. */
  ghost predicate ShiftedDown(before: FileSystem, after: FileSystem, lo: nat, hi: nat) {
    && Chain(lo) !in after
    && (forall j: nat | lo <= j < hi :: MovedDown(before, after, j))
    && (forall s | !Moved(s, lo, hi) :: SameAt(before, after, s))
  }

  /** Every chain position has a run end. */
  lemma {:induction false} RunEndExists(fs: FileSystem, lo: nat, maxBackups: nat) returns (end: nat)
    requires lo <= maxBackups + 1
    ensures RunFrom(fs, lo, end, maxBackups)
    decreases maxBackups + 1 - lo
  {
    if lo == maxBackups + 1 || Chain(lo) !in fs {
      end := lo;
    } else {
      end := RunEndExists(fs, lo + 1, maxBackups);
    }
  }

  /** Renaming slot `lo` onto the slot the deeper shift vacated extends the shift to `lo`. */
  lemma ShiftExtends(before: FileSystem, d: FileSystem, lo: nat, hi: nat)
    requires lo < hi && Chain(lo) in before
    requires ShiftedDown(before, d, lo + 1, hi)
    ensures Chain(lo) in d
    ensures ShiftedDown(before, Rename(d, Chain(lo), Chain(lo + 1)), lo, hi)
  {
    assert SameAt(before, d, Chain(lo));
    var r := Rename(d, Chain(lo), Chain(lo + 1));
    forall j: nat | lo <= j < hi
      ensures MovedDown(before, r, j)
    {
      if j > lo {
        assert MovedDown(before, d, j);
      }
    }
    forall s | !Moved(s, lo, hi)
      ensures SameAt(before, r, s)
    {
      assert SameAt(before, d, s);
    }
  }

  /** Without faults, rotation shifts exactly the contiguous run of present slots
      starting at `lo` down by one: it stops at the first missing slot (no gap is
      skipped), drops the file at `maxBackups` when the run reaches it, and leaves every
      slot after the run, and every slot past `maxBackups`, untouched. */
  lemma {:induction false} RemoveBackupShifts(fs: FileSystem, lo: nat, end: nat, maxBackups: nat)
    requires lo <= maxBackups
    requires RunFrom(fs, lo, end, maxBackups)
    ensures ShiftedDown(fs, RemoveBackup(fs, lo, maxBackups, {}).fs, lo, Min(end, maxBackups))
    ensures !RemoveBackup(fs, lo, maxBackups, {}).failed
    decreases maxBackups - lo
  {
    var r := RemoveBackup(fs, lo, maxBackups, {});
    if Chain(lo) !in fs {
      assert r == Rotation(fs, false);
      assert end == lo;
    } else if lo == maxBackups {
      assert r == Rotation(fs - {Chain(lo)}, false);
      assert end == maxBackups + 1;
    } else {
      var d := RemoveBackup(fs, lo + 1, maxBackups, {}).fs;
      assert SameAt(fs, d, Chain(lo));
      assert r == Rotation(Rename(d, Chain(lo), Chain(lo + 1)), false);
      RemoveBackupShifts(fs, lo + 1, end, maxBackups);
      ShiftExtends(fs, d, lo, Min(end, maxBackups));
    }
  }

  /** The disk side of one real write: the payload is staged in Tmp (index.js:113), the
      chain is rotated from the primary (135), and Tmp is renamed onto the primary
      (139). A rotation error is only logged (136-138), so the install happens whatever
      `faults` says. */
  function WriteCycle(fs: FileSystem, payload: string, maxBackups: nat, faults: set<nat>): (r: FileSystem)
    ensures Chain(0) in r && r[Chain(0)] == payload
    ensures Tmp !in r
    ensures forall s | s in r && s !in fs :: s.Chain? && s.index <= maxBackups
  {
    var staged := fs[Tmp := payload];
    var rotated := RemoveBackup(staged, 0, maxBackups, faults);
    assert SameAt(staged, rotated.fs, Tmp);
    Rename(rotated.fs, Tmp, Chain(0))
  }

  /** Without faults, a write puts the previous primary in backup slot 1 and keeps all
      other rotation effects of RemoveBackupShifts. */
  lemma WriteCycleKeepsPrevious(fs: FileSystem, payload: string, maxBackups: nat)
    requires 1 <= maxBackups && Chain(0) in fs
    ensures Chain(1) in WriteCycle(fs, payload, maxBackups, {})
    ensures WriteCycle(fs, payload, maxBackups, {})[Chain(1)] == fs[Chain(0)]
  {
    var staged := fs[Tmp := payload];
    var end := RunEndExists(staged, 0, maxBackups);
    RemoveBackupShifts(staged, 0, end, maxBackups);
    var rotated := RemoveBackup(staged, 0, maxBackups, {}).fs;
    assert MovedDown(staged, rotated, 0);
    assert SameAt(staged, rotated, Tmp);
    assert SameAt(rotated, Rename(rotated, Tmp, Chain(0)), Chain(1));
  }

  /** The chain holds exactly `hist` (newest first) in slots `0..|hist|-1`, and nothing else exists. */
  ghost predicate ChainHolds(fs: FileSystem, hist: seq<string>) {
    && Tmp !in fs
    && (forall i: nat | i < |hist| :: Chain(i) in fs && fs[Chain(i)] == hist[i])
    && (forall i: nat | |hist| <= i :: Chain(i) !in fs)
  }

  /** Installing Tmp onto the primary after a shift of a gap-free chain yields the
      chain with the staged payload in front. */
  lemma InstallAfterShift(staged: FileSystem, rotated: FileSystem, hist: seq<string>, payload: string, hi: nat)
    requires Tmp in staged && staged[Tmp] == payload
    requires forall i: nat | i < |hist| :: Chain(i) in staged && staged[Chain(i)] == hist[i]
    requires forall i: nat | |hist| <= i :: Chain(i) !in staged
    requires ShiftedDown(staged, rotated, 0, hi) && hi <= |hist| <= hi + 1
    ensures Tmp in rotated
    ensures ChainHolds(Rename(rotated, Tmp, Chain(0)), ([payload] + hist)[..hi + 1])
  {
    assert SameAt(staged, rotated, Tmp);
    var r := Rename(rotated, Tmp, Chain(0));
    var h := ([payload] + hist)[..hi + 1];
    forall i: nat | i < |h|
      ensures Chain(i) in r && r[Chain(i)] == h[i]
    {
      if 0 < i {
        assert MovedDown(staged, rotated, i - 1);
        assert SameAt(rotated, r, Chain(i));
      }
    }
    forall i: nat | |h| <= i
      ensures Chain(i) !in r
    {
      assert SameAt(staged, rotated, Chain(i));
      assert SameAt(rotated, r, Chain(i));
    }
  }

  /** A write onto a gap-free chain pushes the payload on the front and, once the chain
      has `maxBackups + 1` files, drops the oldest. */
  lemma WriteCycleExtendsChain(fs: FileSystem, hist: seq<string>, payload: string, maxBackups: nat)
    requires ChainHolds(fs, hist) && |hist| <= maxBackups + 1
    ensures ChainHolds(WriteCycle(fs, payload, maxBackups, {}), ([payload] + hist)[..Min(|hist| + 1, maxBackups + 1)])
  {
    var staged := fs[Tmp := payload];
    assert RunFrom(staged, 0, |hist|, maxBackups);
    RemoveBackupShifts(staged, 0, |hist|, maxBackups);
    var hi := Min(|hist|, maxBackups);
    var rotated := RemoveBackup(staged, 0, maxBackups, {}).fs;
    InstallAfterShift(staged, rotated, hist, payload, hi);
  }

  /** The payloads of `payloads`, newest first. */
  function NewestFirst(payloads: seq<string>): (r: seq<string>)
    ensures |r| == |payloads|
    ensures forall i :: 0 <= i < |r| ==> r[i] == payloads[|payloads| - 1 - i]
  {
    if payloads == [] then [] else [payloads[|payloads| - 1]] + NewestFirst(payloads[..|payloads| - 1])
  }

  /** Successive fault-free real writes of `payloads`, oldest first. */
  function WriteAll(fs: FileSystem, payloads: seq<string>, maxBackups: nat): FileSystem
    decreases |payloads|
  {
    if payloads == [] then fs
    else WriteCycle(WriteAll(fs, payloads[..|payloads| - 1], maxBackups), payloads[|payloads| - 1], maxBackups, {})
  }

  /** Starting from no files, K writes leave exactly the min(K, maxBackups + 1) most
      recent payloads, newest in the primary. */
  lemma {:induction false} WritesKeepNewest(payloads: seq<string>, maxBackups: nat)
    ensures ChainHolds(WriteAll(map[], payloads, maxBackups), NewestFirst(payloads)[..Min(|payloads|, maxBackups + 1)])
    decreases |payloads|
  {
    if payloads != [] {
      var k := |payloads|;
      var prefix := payloads[..k - 1];
      var p := payloads[k - 1];
      assert payloads == prefix + [p];
      var before := WriteAll(map[], prefix, maxBackups);
      var hist := NewestFirst(prefix)[..Min(k - 1, maxBackups + 1)];
      WritesKeepNewest(prefix, maxBackups);
      WriteCycleExtendsChain(before, hist, p, maxBackups);
      NewestFirstPush(prefix, p);
      TakeAfterPush(p, NewestFirst(prefix), Min(k - 1, maxBackups + 1), Min(k, maxBackups + 1));
      assert ([p] + hist)[..Min(|hist| + 1, maxBackups + 1)] == NewestFirst(payloads)[..Min(k, maxBackups + 1)];
    }
  }

  /** NewestFirst puts the last payload in front. */
  lemma NewestFirstPush(prefix: seq<string>, p: string)
    ensures NewestFirst(prefix + [p]) == [p] + NewestFirst(prefix)
  {
    var q := prefix + [p];
    assert q[..|q| - 1] == prefix;
  }

  /** Cutting the history before or after pushing a payload agrees when the cut grows by at most one. */
  lemma TakeAfterPush(p: string, x: seq<string>, m: nat, m': nat)
    requires m <= |x| && m' <= m + 1
    ensures ([p] + x[..m])[..m'] == ([p] + x)[..m']
  {
    var lhs, rhs := ([p] + x[..m])[..m'], ([p] + x)[..m'];
    forall i | 0 <= i < m'
      ensures lhs[i] == rhs[i]
    {
      if 0 < i {
        assert lhs[i] == x[i - 1] == rhs[i];
      }
    }
  }

  /** A chain holding `hist` consists of exactly |hist| files. */
  lemma {:induction false} ChainFileCount(fs: FileSystem, hist: seq<string>)
    requires ChainHolds(fs, hist)
    ensures |fs| == |hist|
    decreases |hist|
  {
    if hist == [] {
      forall s: Slot
        ensures s !in fs
      {
        if s.Chain? {
          assert Chain(s.index) !in fs;
        }
      }
      assert fs.Keys == {};
    } else {
      var last := Chain(|hist| - 1);
      ChainFileCount(fs - {last}, hist[..|hist| - 1]);
      assert fs.Keys == (fs - {last}).Keys + {last};
    }
  }
}
