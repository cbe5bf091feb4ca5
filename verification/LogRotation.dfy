/**
 * The rotating log file: the base file is file 0, and rotation shifts every file one place up.
 * A missing file differs from an empty one, so gaps left by an operator are covered.
 */
module LogRotation {
  import opened Common

  type Files = map<nat, string>

  function Get(files: Files, i: nat): Option<string> {
    if i in files then Some(files[i]) else None
  }

  function Text(files: Files, i: nat): string {
    if i in files then files[i] else ""
  }

  /** File `i` after a rotation that keeps `max` rotated files. */
  function ShiftedAt(files: Files, max: nat, i: nat): Option<string>
    requires max > 0
  {
    if i == 0 then Some("")
    else if i < max || (i == max && max - 1 in files) then Get(files, i - 1)
    else Get(files, i)
  }

  /** File `i` once the places above `index` have been filled. */
  function MidwayAt(files: Files, max: nat, index: nat, i: nat): Option<string>
    requires max > 0
  {
    if i < index || i == index == max then Get(files, i)
    else if i == index then None
    else ShiftedAt(files, max, i)
  }

  ghost predicate IsShift(before: Files, after: Files, max: nat)
    requires max > 0
  {
    forall i: nat :: Get(after, i) == ShiftedAt(before, max, i)
  }

  /** Whether a write of `n` bytes starts a new file. */
  predicate Rotates(size: nat, n: nat, maxBytes: nat) {
    size > 0 && size + n > maxBytes
  }

  ghost predicate IsWrite(before: Files, after: Files, maxBytes: nat, max: nat, buf: string)
    requires max > 0 && 0 in before
  {
    if Rotates(|before[0]|, |buf|, maxBytes) then
      exists shifted: Files :: IsShift(before, shifted, max) && 0 in shifted && after == shifted[0 := shifted[0] + buf]
    else after == before[0 := before[0] + buf]
  }

  class RotatingFileWriter {
    const maxBytes: nat
    const maxFiles: nat
    var files: Files
    var size: nat

    ghost predicate Valid()
      reads this
    {
      maxBytes > 0 && maxFiles > 0 && 0 in files && size == |files[0]|
    }

    /** Opens the base file for appending, creating it when missing. */
    constructor (maxBytes: nat, maxFiles: nat, files: Files)
      requires maxBytes > 0 && maxFiles > 0
      ensures Valid() && this.maxBytes == maxBytes && this.maxFiles == maxFiles
      ensures this.files == files[0 := Text(files, 0)]
    {
      this.maxBytes, this.maxFiles := maxBytes, maxFiles;
      this.files := files[0 := Text(files, 0)];
      size := |Text(files, 0)|;
    }

    /** Moves the files up from the highest place down, then opens an empty base file. */
    method Rotate()
      requires Valid()
      modifies this
      ensures Valid() && IsShift(old(files), files, maxFiles)
    {
      var index := maxFiles;
      while index >= 1
        invariant 0 <= index <= maxFiles
        invariant forall i: nat :: Get(files, i) == MidwayAt(old(files), maxFiles, index, i)
      {
        ghost var before := files;
        if index - 1 in files {
          var moved := files[index - 1];
          files := files[index := moved] - {index - 1};
        }
        forall i: nat ensures Get(files, i) == MidwayAt(old(files), maxFiles, index - 1, i) {
          assert Get(before, i) == MidwayAt(old(files), maxFiles, index, i);
          assert Get(before, index - 1) == Get(old(files), index - 1);
        }
        index := index - 1;
      }
      ghost var before := files;
      files := files[0 := ""];
      size := 0;
      forall i: nat ensures Get(files, i) == ShiftedAt(old(files), maxFiles, i) {
        assert Get(before, i) == MidwayAt(old(files), maxFiles, 0, i);
      }
    }

    method Write(buf: string)
      requires Valid()
      modifies this
      ensures Valid() && IsWrite(old(files), files, maxBytes, maxFiles, buf)
    {
      if size > 0 && size + |buf| > maxBytes {
        Rotate();
        assert IsShift(old(files), files, maxFiles);
      }
      files := files[0 := files[0] + buf];
      size := size + |buf|;
    }
  }

  // ------------------------------------------------------------------------ history

  /** What the log says, oldest first: places `k` down to the base file. */
  function History(files: Files, k: nat): string {
    if k == 0 then Text(files, 0) else Text(files, k) + History(files, k - 1)
  }

  lemma {:induction false} HistoryShifts(before: Files, after: Files, max: nat, k: nat)
    requires max > 0 && IsShift(before, after, max) && k < max
    ensures History(after, k) == if k == 0 then "" else History(before, k - 1)
  {
    assert Get(after, k) == ShiftedAt(before, max, k);
    if k > 0 {
      HistoryShifts(before, after, max, k - 1);
      if k == 1 {
        assert Text(after, 1) + "" == Text(before, 0);
      }
    }
  }

  /** A rotation loses the oldest file at most, and only when the place below it was taken. */
  lemma RotationDropsOldest(before: Files, after: Files, max: nat)
    requires max > 0 && IsShift(before, after, max)
    ensures History(before, max) == (if max - 1 in before then Text(before, max) else "") + History(after, max)
  {
    HistoryShifts(before, after, max, max - 1);
    assert Get(after, max) == ShiftedAt(before, max, max);
    if max - 1 in before {
      assert Text(after, max) == before[max - 1];
      if max == 1 {
        assert History(after, 1) == before[0] + "" == before[0];
      }
    } else {
      assert Text(after, max) == Text(before, max);
      if max == 1 {
        assert History(before, 1) == Text(before, 1) + "";
      } else {
        assert History(before, max - 1) == "" + History(before, max - 2) == History(before, max - 2);
      }
      assert "" + History(after, max) == History(after, max);
    }
  }

  lemma {:induction false} HistoryAppends(files: Files, buf: string, k: nat)
    requires 0 in files
    ensures History(files[0 := files[0] + buf], k) == History(files, k) + buf
  {
    if k > 0 {
      HistoryAppends(files, buf, k - 1);
    }
  }

  lemma Regroup(a: string, b: string, c: string)
    ensures a + b + c == a + (b + c)
  {
  }

  /** What a write loses: nothing, or the whole oldest file. */
  function Dropped(before: Files, maxBytes: nat, max: nat, buf: string): string
    requires max > 0 && 0 in before
  {
    if Rotates(|before[0]|, |buf|, maxBytes) && max - 1 in before then Text(before, max) else ""
  }

  /** A write appends its bytes and loses no more than that. */
  lemma WriteKeepsHistory(before: Files, after: Files, maxBytes: nat, max: nat, buf: string)
    requires max > 0 && 0 in before && IsWrite(before, after, maxBytes, max, buf)
    ensures 0 in after
    ensures History(before, max) + buf == Dropped(before, maxBytes, max, buf) + History(after, max)
  {
    if Rotates(|before[0]|, |buf|, maxBytes) {
      var shifted: Files :| IsShift(before, shifted, max) && 0 in shifted && after == shifted[0 := shifted[0] + buf];
      RotationDropsOldest(before, shifted, max);
      HistoryAppends(shifted, buf, max);
      Regroup(Dropped(before, maxBytes, max, buf), History(shifted, max), buf);
    } else {
      HistoryAppends(before, buf, max);
      assert "" + History(after, max) == History(after, max);
    }
  }

  // --------------------------------------------------------------------------- runs

  /** A run of the writer: the files before the first and after every write. */
  ghost predicate IsRun(states: seq<Files>, bufs: seq<string>, maxBytes: nat, max: nat)
    requires max > 0
  {
    && |states| == |bufs| + 1
    && (forall i :: 0 <= i < |states| ==> 0 in states[i])
    && forall i :: 0 <= i < |bufs| ==> IsWrite(states[i], states[i + 1], maxBytes, max, bufs[i])
  }

  function Concat(bufs: seq<string>): string {
    if bufs == [] then "" else Concat(bufs[..|bufs| - 1]) + bufs[|bufs| - 1]
  }

  predicate IsSuffix(s: string, whole: string) {
    |s| <= |whole| && whole[|whole| - |s|..] == s
  }

  lemma RunPrefix(states: seq<Files>, bufs: seq<string>, maxBytes: nat, max: nat)
    requires max > 0 && IsRun(states, bufs, maxBytes, max) && bufs != []
    ensures IsRun(states[..|bufs|], bufs[..|bufs| - 1], maxBytes, max)
  {
    var n := |bufs| - 1;
    forall i | 0 <= i < n ensures IsWrite(states[..n + 1][i], states[..n + 1][i + 1], maxBytes, max, bufs[..n][i]) {
      assert IsWrite(states[i], states[i + 1], maxBytes, max, bufs[i]);
    }
  }

  lemma SuffixGrows(s: string, whole: string, buf: string, dropped: string, now: string)
    requires IsSuffix(s, whole) && s + buf == dropped + now
    ensures IsSuffix(now, whole + buf)
  {
    var n := |whole| - |s|;
    assert whole == whole[..n] + s;
    assert whole + buf == whole[..n] + (s + buf);
    assert whole + buf == (whole[..n] + dropped) + now;
  }

  /** In every run the log reads as the most recent part of everything ever written, in order. */
  lemma {:induction false} LogIsRecentHistory(states: seq<Files>, bufs: seq<string>, maxBytes: nat, max: nat)
    requires max > 0 && IsRun(states, bufs, maxBytes, max)
    ensures IsSuffix(History(states[|bufs|], max), History(states[0], max) + Concat(bufs))
    decreases |bufs|
  {
    if bufs == [] {
      assert History(states[0], max) + "" == History(states[0], max);
    } else {
      var n := |bufs| - 1;
      RunPrefix(states, bufs, maxBytes, max);
      LogIsRecentHistory(states[..n + 1], bufs[..n], maxBytes, max);
      assert IsWrite(states[n], states[n + 1], maxBytes, max, bufs[n]);
      WriteKeepsHistory(states[n], states[n + 1], maxBytes, max, bufs[n]);
      var dropped := Dropped(states[n], maxBytes, max, bufs[n]);
      var whole := History(states[0], max) + Concat(bufs[..n]);
      SuffixGrows(History(states[n], max), whole, bufs[n], dropped, History(states[n + 1], max));
      Regroup(History(states[0], max), Concat(bufs[..n]), bufs[n]);
    }
  }

  // --------------------------------------------------------------------------- sizes

  /** How often a run rotates: the number of files the writer has begun beside the base file it found. */
  function Rotations(states: seq<Files>, bufs: seq<string>, maxBytes: nat): nat
    requires |states| == |bufs| + 1
    decreases |bufs|
  {
    if bufs == [] then 0
    else
      var n := |bufs| - 1;
      Rotations(states[..n + 1], bufs[..n], maxBytes)
      + if Rotates(|Text(states[n], 0)|, |bufs[n]|, maxBytes) then 1 else 0
  }

  /** File `i` and the older one above it, which the writer left because the next write did not fit. */
  predicate BegunAt(now: Files, maxBytes: nat, max: nat, bound: nat, i: nat) {
    && i in now && |now[i]| <= bound
    && (i < max ==> i + 1 in now && |now[i + 1]| + |now[i]| > maxBytes)
  }

  /** The base file the writer found, with what was appended to it. */
  predicate FoundAt(first: Files, now: Files, bound: nat, i: nat) {
    i in now && Text(first, 0) <= now[i] && |now[i]| <= Max(bound, |Text(first, 0)|)
  }

  /** An older file is one that was there from the start. */
  predicate OlderAt(first: Files, now: Files, max: nat, i: nat) {
    i in now ==> exists k: nat :: 0 < k <= max && Get(first, k) == Get(now, i)
  }

  predicate PlaceKept(first: Files, now: Files, rotations: nat, maxBytes: nat, max: nat, bound: nat, i: nat) {
    if i > max then Get(now, i) == Get(first, i)
    else if i < rotations then BegunAt(now, maxBytes, max, bound, i)
    else if i == rotations then FoundAt(first, now, bound, i)
    else OlderAt(first, now, max, i)
  }

  ghost predicate SizesKept(first: Files, now: Files, rotations: nat, maxBytes: nat, max: nat, bound: nat) {
    forall i: nat :: PlaceKept(first, now, rotations, maxBytes, max, bound, i)
  }

  lemma AppendKeepsSizes(first: Files, before: Files, rotations: nat, maxBytes: nat, max: nat, bound: nat, buf: string)
    requires 0 in before && SizesKept(first, before, rotations, maxBytes, max, bound)
    requires !Rotates(|before[0]|, |buf|, maxBytes) && maxBytes <= bound && |buf| <= bound
    ensures SizesKept(first, before[0 := before[0] + buf], rotations, maxBytes, max, bound)
  {
    var after := before[0 := before[0] + buf];
    forall i: nat ensures PlaceKept(first, after, rotations, maxBytes, max, bound, i) {
      assert PlaceKept(first, before, rotations, maxBytes, max, bound, i);
    }
  }

  lemma ShiftKeepsPlace(first: Files, before: Files, shifted: Files, rotations: nat, maxBytes: nat, max: nat,
                        bound: nat, buf: string, i: nat)
    requires max > 0 && 0 in before && IsShift(before, shifted, max) && 0 in shifted
    requires SizesKept(first, before, rotations, maxBytes, max, bound)
    requires Rotates(|before[0]|, |buf|, maxBytes) && |buf| <= bound
    ensures PlaceKept(first, shifted[0 := shifted[0] + buf], rotations + 1, maxBytes, max, bound, i)
  {
    assert Get(shifted, i) == ShiftedAt(before, max, i);
    assert PlaceKept(first, before, rotations, maxBytes, max, bound, i);
    assert Get(shifted, i + 1) == ShiftedAt(before, max, i + 1);
    assert Get(shifted, 0) == ShiftedAt(before, max, 0);
    if i > 0 {
      assert PlaceKept(first, before, rotations, maxBytes, max, bound, i - 1);
    }
  }

  lemma WriteKeepsSizes(first: Files, before: Files, after: Files, rotations: nat, maxBytes: nat, max: nat,
                        bound: nat, buf: string)
    requires max > 0 && 0 in before && IsWrite(before, after, maxBytes, max, buf)
    requires SizesKept(first, before, rotations, maxBytes, max, bound) && maxBytes <= bound && |buf| <= bound
    ensures SizesKept(first, after, rotations + if Rotates(|before[0]|, |buf|, maxBytes) then 1 else 0,
                      maxBytes, max, bound)
  {
    if Rotates(|before[0]|, |buf|, maxBytes) {
      var shifted: Files :| IsShift(before, shifted, max) && 0 in shifted && after == shifted[0 := shifted[0] + buf];
      var more := rotations + 1;
      forall i: nat ensures PlaceKept(first, after, more, maxBytes, max, bound, i) {
        ShiftKeepsPlace(first, before, shifted, rotations, maxBytes, max, bound, buf, i);
      }
    } else {
      AppendKeepsSizes(first, before, rotations, maxBytes, max, bound, buf);
    }
  }

  /**
   * Whatever files the writer finds: those it begins stay within the limit or the longest single
   * write and would not have fitted into the file before them; the base file it found only grows,
   * within the same bound; what is older is as it was, and nothing beyond place `max` is touched.
   */
  lemma {:induction false} RunSizes(states: seq<Files>, bufs: seq<string>, maxBytes: nat, max: nat, bound: nat)
    requires max > 0 && IsRun(states, bufs, maxBytes, max)
    requires maxBytes <= bound && forall b <- bufs :: |b| <= bound
    ensures SizesKept(states[0], states[|bufs|], Rotations(states, bufs, maxBytes), maxBytes, max, bound)
    decreases |bufs|
  {
    var first := states[0];
    if bufs == [] {
      forall i: nat ensures PlaceKept(first, first, 0, maxBytes, max, bound, i) {
      }
    } else {
      var n := |bufs| - 1;
      RunPrefix(states, bufs, maxBytes, max);
      RunSizes(states[..n + 1], bufs[..n], maxBytes, max, bound);
      assert IsWrite(states[n], states[n + 1], maxBytes, max, bufs[n]);
      assert bufs[n] in bufs;
      WriteKeepsSizes(first, states[n], states[n + 1], Rotations(states[..n + 1], bufs[..n], maxBytes),
                      maxBytes, max, bound, bufs[n]);
    }
  }

  /** No file is longer than `bound`. */
  ghost predicate Bounded(files: Files, bound: nat) {
    forall i: nat :: |Text(files, i)| <= bound
  }

  /** Neighbouring files together exceed the limit, with no gap between them. */
  ghost predicate Packed(files: Files, maxBytes: nat) {
    forall i: nat :: i > 0 && i in files ==> i - 1 in files && |files[i]| + |files[i - 1]| > maxBytes
  }

  /** A log begun by the writer is bounded and packed as a whole, and has at most `max` rotated files. */
  lemma FreshLogSizes(states: seq<Files>, bufs: seq<string>, maxBytes: nat, max: nat, bound: nat)
    requires max > 0 && IsRun(states, bufs, maxBytes, max) && states[0] == map[0 := ""]
    requires maxBytes <= bound && forall b <- bufs :: |b| <= bound
    ensures Bounded(states[|bufs|], bound) && Packed(states[|bufs|], maxBytes)
    ensures forall i <- states[|bufs|] :: i <= max
  {
    RunSizes(states, bufs, maxBytes, max, bound);
    var first, now, rotations := states[0], states[|bufs|], Rotations(states, bufs, maxBytes);
    forall i: nat
      ensures |Text(now, i)| <= bound
      ensures i in now ==> i <= max && i <= rotations
      ensures i > 0 && i in now ==> i - 1 in now && |now[i]| + |now[i - 1]| > maxBytes
    {
      assert PlaceKept(first, now, rotations, maxBytes, max, bound, i);
      if i > 0 {
        assert PlaceKept(first, now, rotations, maxBytes, max, bound, i - 1);
      }
    }
  }
}
