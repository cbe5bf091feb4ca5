/**
 * How much an accepted update archive can stage. Every entry is checked against what the declared
 * sizes of the entries before it leave of the limit, so the declared sizes decide.
 */
module UpdateStaging {
  import opened Common
  import opened Paths
  import opened UpdateArchive

  function StagedBytes(entries: seq<Entry>): nat {
    if entries == [] then 0 else StagedBytes(entries[..|entries| - 1]) + |entries[|entries| - 1].data|
  }

  function Sizes(entries: seq<Entry>): (r: seq<nat>)
    ensures |r| == |entries|
    ensures forall k :: 0 <= k < |entries| ==> r[k] == entries[k].size
  {
    seq(|entries|, k requires 0 <= k < |entries| => entries[k].size)
  }

  function Sum(sizes: seq<nat>): nat {
    if sizes == [] then 0 else Sum(sizes[..|sizes| - 1]) + sizes[|sizes| - 1]
  }

  function Left(maxBytes: nat, used: nat): nat {
    if used <= maxBytes then maxBytes - used else 0
  }

  /** What entries of these declared sizes may stage in all. */
  function Room(sizes: seq<nat>, maxBytes: nat): nat {
    if sizes == [] then 0
    else Room(sizes[..|sizes| - 1], maxBytes) + Left(maxBytes, Sum(sizes[..|sizes| - 1]))
  }

  lemma SizesGrow(front: seq<Entry>, e: Entry)
    ensures Sizes(front + [e]) == Sizes(front) + [e.size]
    ensures Sum(Sizes(front + [e])) == Sum(Sizes(front)) + e.size
    ensures StagedBytes(front + [e]) == StagedBytes(front) + |e.data|
  {
    assert (front + [e])[..|front|] == front;
    assert (Sizes(front) + [e.size])[..|front|] == Sizes(front);
  }

  lemma RoomGrows(sizes: seq<nat>, size: nat, maxBytes: nat)
    ensures Room(sizes + [size], maxBytes) == Room(sizes, maxBytes) + Left(maxBytes, Sum(sizes))
    ensures Sum(sizes + [size]) == Sum(sizes) + size
  {
    assert (sizes + [size])[..|sizes|] == sizes;
  }

  lemma {:induction false} RunningTotalIsSum(entries: seq<Entry>)
    ensures RunningTotal(entries) == Min(Sum(Sizes(entries)), U64_MAX)
  {
    if entries != [] {
      var n := |entries| - 1;
      RunningTotalIsSum(entries[..n]);
      assert entries == entries[..n] + [entries[n]];
      SizesGrow(entries[..n], entries[n]);
    }
  }

  /** Below the largest `u64` nothing saturates; at it, nothing is refused. */
  lemma BudgetMeans(front: seq<Entry>, e: Entry, maxBytes: nat)
    ensures WithinBudget(front, e, maxBytes) <==>
            maxBytes >= U64_MAX || (Sum(Sizes(front)) + Max(e.size, |e.data|) <= maxBytes)
  {
    RunningTotalIsSum(front);
  }

  /** No accepted archive stages more than its declared sizes leave room for. */
  lemma {:induction false} StagedWithinRoom(entries: seq<Entry>, maxBytes: nat)
    requires Affordable(entries, maxBytes) && maxBytes < U64_MAX
    ensures StagedBytes(entries) <= Room(Sizes(entries), maxBytes)
    ensures Sum(Sizes(entries)) <= maxBytes
  {
    if entries != [] {
      var n := |entries| - 1;
      var front := entries[..n];
      assert entries == front + [entries[n]];
      AffordableGrows(front, entries[n], maxBytes);
      StagedWithinRoom(front, maxBytes);
      SizesGrow(front, entries[n]);
      RoomGrows(Sizes(front), entries[n].size, maxBytes);
      BudgetMeans(front, entries[n], maxBytes);
    }
  }

  lemma {:induction false} HonestStaging(entries: seq<Entry>)
    requires forall e <- entries :: |e.data| <= e.size
    ensures StagedBytes(entries) <= Sum(Sizes(entries))
  {
    if entries != [] {
      var n := |entries| - 1;
      HonestStaging(entries[..n]);
      assert entries == entries[..n] + [entries[n]] && entries[n] in entries;
      SizesGrow(entries[..n], entries[n]);
    }
  }

  /** Where no entry yields more than it declares, the limit bounds everything that is staged. */
  lemma HonestSizesBoundStaging(entries: seq<Entry>, maxBytes: nat)
    requires Affordable(entries, maxBytes) && maxBytes < U64_MAX
    requires forall e <- entries :: |e.data| <= e.size
    ensures StagedBytes(entries) <= Sum(Sizes(entries)) <= maxBytes
  {
    HonestStaging(entries);
    StagedWithinRoom(entries, maxBytes);
  }

  // -------------------------------------------------------------- the fullest archive

  /** `c` repeated. */
  function Repeated(c: char, n: nat): (r: string)
    ensures |r| == n
    ensures forall k :: 0 <= k < n ==> r[k] == c
  {
    seq(n, k => c)
  }

  function Name(k: nat): string {
    Repeated('a', k + 1)
  }

  lemma NameIsPlain(k: nat, maxDepth: nat)
    requires maxDepth >= 1
    ensures PathAccepted(Name(k), maxDepth)
    ensures |Fold(Name(k))| == k + 1
  {
    var name := Name(k);
    SplitOfJoin([name]);
    assert Join([name]) == name;
    assert Fold(name)[0] == 'a';
  }

  function Fullest(sizes: seq<nat>, lengths: seq<nat>): (r: seq<Entry>)
    requires |sizes| == |lengths|
    ensures |r| == |sizes|
    ensures forall k :: 0 <= k < |sizes| ==>
              r[k] == Entry(Name(k), false, false, None, sizes[k], Repeated('z', lengths[k]))
  {
    seq(|sizes|, k requires 0 <= k < |sizes| => Entry(Name(k), false, false, None, sizes[k], Repeated('z', lengths[k])))
  }

  /** The changes that declare exactly the files of an archive. */
  function Declaring(entries: seq<Entry>, hash: Hash): (r: seq<Change>)
    ensures |r| == |entries|
    ensures forall k :: 0 <= k < |entries| ==> r[k] == File(entries[k].name, hash(entries[k].data))
  {
    seq(|entries|, k requires 0 <= k < |entries| => File(entries[k].name, hash(entries[k].data)))
  }

  lemma DeclaredKeys(entries: seq<Entry>, hash: Hash)
    requires DistinctNames(entries)
    ensures DistinctPaths(Declaring(entries, hash))
    ensures forall e <- entries ::
              e.name in Declared(Declaring(entries, hash)) && Declared(Declaring(entries, hash))[e.name] == hash(e.data)
    ensures |Declared(Declaring(entries, hash))| == |entries|
  {
    var changes := Declaring(entries, hash);
    forall i, j | 0 <= i < j < |changes| ensures Fold(changes[i].path) != Fold(changes[j].path) {
      assert Fold(entries[i].name) != Fold(entries[j].name);
    }
    forall e <- entries ensures e.name in Declared(changes) && Declared(changes)[e.name] == hash(e.data) {
      var k :| 0 <= k < |entries| && entries[k] == e;
      DeclaredByOneChange(changes, k);
    }
    forall path <- Declared(changes) ensures path in Names(entries) {
      var k := DeclaredComesFrom(changes, path);
      assert entries[k] in entries;
    }
    assert Declared(changes).Keys == Names(entries);
    DistinctNamesCount(entries);
  }

  /** An affordable archive of regular files is accepted with the changes that declare it. */
  lemma DeclaredArchiveFits(entries: seq<Entry>, hash: Hash, maxBytes: nat)
    requires DistinctNames(entries) && Affordable(entries, maxBytes) && forall e <- entries :: RegularEntry(e)
    ensures Fits(entries, Declaring(entries, hash), Policy(|entries|, maxBytes), hash)
  {
    DeclaredKeys(entries, hash);
    forall e <- entries ensures EntryMatches(e, Declared(Declaring(entries, hash)), hash) {
    }
  }

  ghost predicate Digests(hash: Hash) {
    forall data :: HexDigest(hash(data))
  }

  lemma FullestIsRequested(sizes: seq<nat>, lengths: seq<nat>, hash: Hash)
    requires |sizes| == |lengths| >= 1 && Digests(hash)
    ensures ChangesAccepted(Declaring(Fullest(sizes, lengths), hash), |sizes|, 1)
    ensures DistinctNames(Fullest(sizes, lengths))
  {
    var entries := Fullest(sizes, lengths);
    forall i, j | 0 <= i < j < |entries| ensures Fold(entries[i].name) != Fold(entries[j].name) {
      NameIsPlain(i, 1);
      NameIsPlain(j, 1);
    }
    DeclaredKeys(entries, hash);
    forall c <- Declaring(entries, hash) ensures ChangeAccepted(c, 1) {
      var k :| 0 <= k < |entries| && Declaring(entries, hash)[k] == c;
      NameIsPlain(k, 1);
    }
  }

  /** Entry `k` yields all that is left of the limit. */
  function Lengths(sizes: seq<nat>, maxBytes: nat): (r: seq<nat>)
    ensures |r| == |sizes|
    ensures forall k :: 0 <= k < |sizes| ==> r[k] == Left(maxBytes, Sum(sizes[..k]))
  {
    seq(|sizes|, k requires 0 <= k < |sizes| => Left(maxBytes, Sum(sizes[..k])))
  }

  lemma LengthsGrow(front: seq<nat>, last: nat, maxBytes: nat)
    ensures Lengths(front + [last], maxBytes) == Lengths(front, maxBytes) + [Left(maxBytes, Sum(front))]
  {
    var sizes := front + [last];
    forall k | 0 <= k < |sizes|
      ensures Lengths(sizes, maxBytes)[k] == (Lengths(front, maxBytes) + [Left(maxBytes, Sum(front))])[k]
    {
      assert sizes[..k] == front[..k];
      assert front[..|front|] == front;
    }
  }

  lemma FullestGrows(sizes: seq<nat>, size: nat, lengths: seq<nat>, length: nat)
    requires |sizes| == |lengths|
    ensures Fullest(sizes + [size], lengths + [length]) ==
            Fullest(sizes, lengths) + [Entry(Name(|sizes|), false, false, None, size, Repeated('z', length))]
  {
  }

  /** One more entry, which yields all that is left. */
  lemma OneMoreFull(entries: seq<Entry>, e: Entry, sizes: seq<nat>, maxBytes: nat)
    requires Affordable(entries, maxBytes) && Sizes(entries) == sizes && StagedBytes(entries) == Room(sizes, maxBytes)
    requires |e.data| == Left(maxBytes, Sum(sizes)) && Sum(sizes) + e.size <= maxBytes < U64_MAX
    ensures Affordable(entries + [e], maxBytes) && Sizes(entries + [e]) == sizes + [e.size]
    ensures StagedBytes(entries + [e]) == Room(sizes + [e.size], maxBytes)
  {
    SizesGrow(entries, e);
    RoomGrows(sizes, e.size, maxBytes);
    BudgetMeans(entries, e, maxBytes);
    AffordableGrows(entries, e, maxBytes);
  }

  lemma {:induction false} FullestFillsRoom(sizes: seq<nat>, maxBytes: nat)
    requires Sum(sizes) <= maxBytes < U64_MAX
    ensures Affordable(Fullest(sizes, Lengths(sizes, maxBytes)), maxBytes)
    ensures StagedBytes(Fullest(sizes, Lengths(sizes, maxBytes))) == Room(sizes, maxBytes)
    ensures Sizes(Fullest(sizes, Lengths(sizes, maxBytes))) == sizes
  {
    if sizes != [] {
      var n := |sizes| - 1;
      var front, last := sizes[..n], sizes[n];
      assert sizes == front + [last];
      RoomGrows(front, last, maxBytes);
      FullestFillsRoom(front, maxBytes);
      LengthsGrow(front, last, maxBytes);
      FullestGrows(front, last, Lengths(front, maxBytes), Left(maxBytes, Sum(front)));
      OneMoreFull(Fullest(front, Lengths(front, maxBytes)),
                  Entry(Name(n), false, false, None, last, Repeated('z', Left(maxBytes, Sum(front)))), front, maxBytes);
    }
  }

  // -------------------------------------------------------------- the exact condition

  /** Every archive with these declared sizes that is accepted stages no more than the limit. */
  ghost predicate StaysWithin(sizes: seq<nat>, maxBytes: nat, hash: Hash) {
    forall entries, changes, maxFiles, maxDepth
      {:trigger Fits(entries, changes, Policy(maxFiles, maxBytes), hash), ChangesAccepted(changes, maxFiles, maxDepth)} ::
      && Sizes(entries) == sizes && ChangesAccepted(changes, maxFiles, maxDepth)
      && Fits(entries, changes, Policy(maxFiles, maxBytes), hash)
      ==> StagedBytes(entries) <= maxBytes
  }

  /** What can be read off the declared sizes before anything is staged. */
  predicate SizesSuffice(sizes: seq<nat>, maxBytes: nat) {
    || sizes == []
    || (maxBytes < U64_MAX && (|sizes| == 1 || sizes[0] == maxBytes || Sum(sizes) > maxBytes))
  }

  lemma {:induction false} RoomBeyondFirst(sizes: seq<nat>, maxBytes: nat)
    requires |sizes| >= 1 && Sum(sizes) <= maxBytes
    ensures sizes[0] <= Sum(sizes)
    ensures Room(sizes, maxBytes) <= maxBytes <==> |sizes| == 1 || sizes[0] == maxBytes
    ensures Room(sizes, maxBytes) >= maxBytes
  {
    var n := |sizes| - 1;
    assert sizes == sizes[..n] + [sizes[n]];
    RoomGrows(sizes[..n], sizes[n], maxBytes);
    if n == 0 {
      assert sizes[..0] == [];
    } else {
      RoomBeyondFirst(sizes[..n], maxBytes);
    }
  }

  /** An archive that is accepted although it stages more than the limit. */
  lemma Overfull(sizes: seq<nat>, maxBytes: nat, hash: Hash) returns (entries: seq<Entry>)
    requires !SizesSuffice(sizes, maxBytes) && Digests(hash)
    ensures Sizes(entries) == sizes && StagedBytes(entries) > maxBytes
    ensures ChangesAccepted(Declaring(entries, hash), |entries|, 1)
    ensures Fits(entries, Declaring(entries, hash), Policy(|entries|, maxBytes), hash)
  {
    var lengths := OverfullLengths(sizes, maxBytes);
    entries := Fullest(sizes, lengths);
    FullestIsRequested(sizes, lengths, hash);
    DeclaredArchiveFits(entries, hash, maxBytes);
  }

  lemma OverfullLengths(sizes: seq<nat>, maxBytes: nat) returns (lengths: seq<nat>)
    requires !SizesSuffice(sizes, maxBytes)
    ensures |lengths| == |sizes| && Affordable(Fullest(sizes, lengths), maxBytes)
    ensures StagedBytes(Fullest(sizes, lengths)) > maxBytes && Sizes(Fullest(sizes, lengths)) == sizes
  {
    if maxBytes < U64_MAX {
      lengths := Lengths(sizes, maxBytes);
      FullestFillsRoom(sizes, maxBytes);
      RoomBeyondFirst(sizes, maxBytes);
    } else {
      lengths := seq(|sizes|, k => maxBytes + 1);
      AnythingIsAffordable(sizes, maxBytes, lengths);
    }
  }

  lemma AnythingIsAffordable(sizes: seq<nat>, maxBytes: nat, lengths: seq<nat>)
    requires maxBytes >= U64_MAX && |sizes| == |lengths| >= 1 && forall n <- lengths :: n > maxBytes
    ensures Affordable(Fullest(sizes, lengths), maxBytes)
    ensures StagedBytes(Fullest(sizes, lengths)) > maxBytes
    ensures Sizes(Fullest(sizes, lengths)) == sizes
  {
    var entries := Fullest(sizes, lengths);
    forall k | 0 <= k < |entries| ensures WithinBudget(entries[..k], entries[k], maxBytes) {
      BudgetMeans(entries[..k], entries[k], maxBytes);
    }
    assert lengths[|sizes| - 1] in lengths;
  }

  /** The limit bounds what is staged exactly for the declared sizes that suffice for it. */
  lemma StagingIsBoundedExactly(sizes: seq<nat>, maxBytes: nat, hash: Hash)
    requires Digests(hash)
    ensures StaysWithin(sizes, maxBytes, hash) <==> SizesSuffice(sizes, maxBytes)
  {
    if SizesSuffice(sizes, maxBytes) {
      forall entries, changes, maxFiles, maxDepth |
        && Sizes(entries) == sizes && ChangesAccepted(changes, maxFiles, maxDepth)
        && Fits(entries, changes, Policy(maxFiles, maxBytes), hash)
        ensures StagedBytes(entries) <= maxBytes
      {
        SufficientSizes(entries, maxBytes);
      }
    } else {
      var entries := Overfull(sizes, maxBytes, hash);
      assert !StaysWithin(sizes, maxBytes, hash) by {
        assert ChangesAccepted(Declaring(entries, hash), |entries|, 1);
        assert Fits(entries, Declaring(entries, hash), Policy(|entries|, maxBytes), hash);
      }
    }
  }

  lemma SufficientSizes(entries: seq<Entry>, maxBytes: nat)
    requires Affordable(entries, maxBytes) && SizesSuffice(Sizes(entries), maxBytes)
    ensures StagedBytes(entries) <= maxBytes
  {
    if entries != [] {
      StagedWithinRoom(entries, maxBytes);
      RoomBeyondFirst(Sizes(entries), maxBytes);
    }
  }
}
