/**
 * The on-disk side of the waf network cache, shared by the Python and Java
 * servers: CACHEDIR holds shard directories, each holding one directory per
 * task signature, each holding the cached files. The disk is a map from shard
 * name to the signature directories in it; a file is its size in bytes.
 */
module CacheStore {

  /** A signature directory: its modification time and its files with their sizes. */
  datatype SigDir = SigDir(mtime: int, files: map<string, nat>)

  /** CACHEDIR: shard name -> signature -> signature directory. */
  type Disk = map<string, map<string, SigDir>>

  /**
   * The size stat reports for a directory. It depends on the file system;
   * contracts about a directory's reported size leave it open, and methods
   * send this value.
   */
  const DirStatSize: nat := 4096

  /** An index entry: the directory's timestamp and the cached size. */
  datatype Entry = Entry(timestamp: int, size: nat)

  /** The shard of a signature: its first two characters (fewer when it is shorter, as a slice gives). */
  function ShardOf(sig: string): (shard: string)
    ensures |shard| == if |sig| < 2 then |sig| else 2
    ensures shard == sig[..|shard|]
  {
    if |sig| < 2 then sig else sig[..2]
  }

  /** CACHEDIR/<shard>/<sig> exists. */
  predicate HasDir(disk: Disk, sig: string)
  {
    ShardOf(sig) in disk && sig in disk[ShardOf(sig)]
  }

  /** The directory CACHEDIR/<shard>/<sig>. */
  function DirAt(disk: Disk, sig: string): SigDir
    requires HasDir(disk, sig)
  {
    disk[ShardOf(sig)][sig]
  }

  /** rmtree of CACHEDIR/<shard>/<sig>: the signature directory goes, its shard stays. */
  function RemoveDir(disk: Disk, sig: string): (d: Disk)
    requires HasDir(disk, sig)
    ensures d.Keys == disk.Keys
    ensures !HasDir(d, sig)
    ensures forall x, y :: x in disk && y in disk[x] && (x, y) != (ShardOf(sig), sig) ==> y in d[x] && d[x][y] == disk[x][y]
    ensures forall x, y :: x in d && y in d[x] ==> y in disk[x]
  {
    var x := ShardOf(sig);
    disk[x := disk[x] - {sig}]
  }

  /** makedirs and a file moved in at time `now`: the directory's mtime becomes `now`. */
  function StoreFile(disk: Disk, sig: string, name: string, size: nat, now: int): (d: Disk)
    ensures HasDir(d, sig) && DirAt(d, sig).mtime == now
    ensures DirAt(d, sig).files == (if HasDir(disk, sig) then DirAt(disk, sig).files else map[])[name := size]
    ensures d.Keys == disk.Keys + {ShardOf(sig)}
    ensures forall x, y :: x in disk && y in disk[x] && (x, y) != (ShardOf(sig), sig) ==> y in d[x] && d[x][y] == disk[x][y]
  {
    var x := ShardOf(sig);
    var shard := if x in disk then disk[x] else map[];
    var files := if sig in shard then shard[sig].files else map[];
    disk[x := shard[sig := SigDir(now, files[name := size])]]
  }

  /**
   * makedirs alone, when the move into the directory fails: a missing
   * signature directory is created empty at time `now`, an existing one is
   * left as it is.
   */
  function MakeDir(disk: Disk, sig: string, now: int): (d: Disk)
    ensures HasDir(d, sig)
    ensures HasDir(disk, sig) ==> d == disk
    ensures !HasDir(disk, sig) ==> DirAt(d, sig) == SigDir(now, map[])
    ensures d.Keys == disk.Keys + {ShardOf(sig)}
    ensures forall x, y :: x in disk && y in disk[x] ==> y in d[x] && d[x][y] == disk[x][y]
  {
    if HasDir(disk, sig) then disk
    else
      var x := ShardOf(sig);
      var shard := if x in disk then disk[x] else map[];
      disk[x := shard[sig := SigDir(now, map[])]]
  }

  /** The sum of the values of a map. */
  ghost function Sum<K>(m: map<K, nat>): nat
    decreases |m|
  {
    if m == map[] then 0
    else
      var k :| k in m;
      m[k] + Sum(m - {k})
  }

  /** The sum does not depend on which key is taken out first. */
  lemma {:induction false} SumRemove<K>(m: map<K, nat>, k: K)
    requires k in m
    ensures Sum(m) == m[k] + Sum(m - {k})
    decreases |m|
  {
    var j :| j in m && Sum(m) == m[j] + Sum(m - {j});
    if j != k {
      var rest := m - {j};
      SumRemove(rest, k);
      SumRemove(m - {k}, j);
      assert rest - {k} == (m - {k}) - {j};
    }
  }

  /** No sum is smaller than one of its values. */
  lemma {:induction false} SumAtLeastValue<K>(m: map<K, nat>, k: K)
    requires k in m
    ensures Sum(m) >= m[k]
  {
    SumRemove(m, k);
  }

  /** The sizes recorded in an index. */
  function Sizes(flist: map<string, Entry>): (sizes: map<string, nat>)
    ensures sizes.Keys == flist.Keys
    ensures forall k :: k in sizes ==> sizes[k] == flist[k].size
  {
    map k | k in flist :: flist[k].size
  }

  /** The total size of everything an index records. */
  ghost function TotalSize(flist: map<string, Entry>): nat
  {
    Sum(Sizes(flist))
  }

  /** Dropping one entry lowers the total by exactly its size. */
  lemma TotalSizeRemove(flist: map<string, Entry>, k: string)
    requires k in flist
    ensures TotalSize(flist) == flist[k].size + TotalSize(flist - {k})
  {
    SumRemove(Sizes(flist), k);
    assert Sizes(flist) - {k} == Sizes(flist - {k});
  }

  /** The size of a directory: the sum of its files' sizes, one file at a time. */
  method DirSize(files: map<string, nat>) returns (size: nat)
    ensures size == Sum(files)
  {
    size := 0;
    var rest := files;
    while rest != map[]
      invariant size + Sum(rest) == Sum(files)
      decreases |rest|
    {
      var z :| z in rest;
      SumRemove(rest, z);
      size := size + rest[z];
      rest := rest - {z};
    }
  }

  /** The summed size of an index, entry by entry. */
  method IndexSize(flist: map<string, Entry>) returns (total: nat)
    ensures total == TotalSize(flist)
  {
    total := 0;
    var rest := flist;
    while rest != map[]
      invariant total + TotalSize(rest) == TotalSize(flist)
      decreases |rest|
    {
      var k :| k in rest;
      TotalSizeRemove(rest, k);
      total := total + rest[k].size;
      rest := rest - {k};
    }
  }

  /** k is an entry with the smallest timestamp: the least recently used one. */
  predicate IsOldest(flist: map<string, Entry>, k: string)
  {
    k in flist && forall j :: j in flist ==> flist[k].timestamp <= flist[j].timestamp
  }

  /** A non-empty index has an oldest entry. */
  lemma {:induction false} OldestExists(flist: map<string, Entry>)
    requires flist != map[]
    ensures exists k :: IsOldest(flist, k)
    decreases |flist|
  {
    var k :| k in flist;
    var rest := flist - {k};
    if rest == map[] {
      forall j | j in flist
        ensures flist[k].timestamp <= flist[j].timestamp
      {
        assert j !in rest;
      }
      assert IsOldest(flist, k);
    } else {
      OldestExists(rest);
      var j :| IsOldest(rest, j);
      forall i | i in flist
        ensures i == k || i in rest
      {
      }
      if flist[k].timestamp <= flist[j].timestamp {
        assert IsOldest(flist, k);
      } else {
        assert IsOldest(flist, j);
      }
    }
  }

  /** Picks the least recently used entry (ties go to any of them, as a sort leaves them in hash order). */
  method Oldest(flist: map<string, Entry>) returns (k: string)
    requires flist != map[]
    ensures IsOldest(flist, k)
  {
    OldestExists(flist);
    k :| IsOldest(flist, k);
  }

  /** The keys of a map in some order, each exactly once (dictionary iteration order is not specified). */
  method KeysInSomeOrder<V>(m: map<string, V>) returns (keys: seq<string>)
    ensures |keys| == |m|
    ensures forall k :: k in m <==> k in keys
    ensures forall a, b :: 0 <= a < b < |keys| ==> keys[a] != keys[b]
  {
    keys := [];
    var rest := m.Keys;
    while rest != {}
      invariant rest <= m.Keys
      invariant forall k :: k in m <==> k in keys || k in rest
      invariant forall k :: k in keys ==> k !in rest
      invariant |keys| + |rest| == |m|
      invariant forall a, b :: 0 <= a < b < |keys| ==> keys[a] != keys[b]
      decreases |rest|
    {
      var k :| k in rest;
      keys := keys + [k];
      rest := rest - {k};
    }
  }

  /** An empty index records nothing. */
  lemma EmptyTotal()
    ensures TotalSize(map[]) == 0
  {
    assert Sizes(map[]) == map[];
  }

  /**
   * `after` is `before` with some entries evicted, least recently used first:
   * the kept entries are unchanged and no evicted entry is newer than a kept one.
   */
  ghost predicate Evicted(before: map<string, Entry>, after: map<string, Entry>)
  {
    && after.Keys <= before.Keys
    && (forall k :: k in after ==> after[k] == before[k])
    && (forall r, k :: r in before && r !in after && k in after ==> before[r].timestamp <= after[k].timestamp)
  }

  /** `disk` is `disk0` with the directories of the signatures `sigs` removed, and nothing else changed. */
  ghost predicate DirsRemoved(disk0: Disk, disk: Disk, sigs: set<string>)
  {
    && disk.Keys == disk0.Keys
    && (forall x, y :: x in disk && y in disk[x] ==> y in disk0[x] && disk[x][y] == disk0[x][y])
    && (forall x, y :: x in disk0 && y in disk0[x] ==> (y in disk[x] <==> !(y in sigs && x == ShardOf(y))))
  }

  /** A recursive delete of CACHEDIR/<shard>/<sig>: gone if it was there, nothing happens if not. */
  function RemoveIfPresent(disk: Disk, sig: string): (d: Disk)
    ensures !HasDir(d, sig) && d.Keys == disk.Keys
    ensures HasDir(disk, sig) ==> d == RemoveDir(disk, sig)
    ensures !HasDir(disk, sig) ==> d == disk
  {
    if HasDir(disk, sig) then RemoveDir(disk, sig) else disk
  }

  /** Dropping one more key from an index adds it to what has been dropped. */
  lemma DroppedOneMore(before: map<string, Entry>, after: map<string, Entry>, k: string)
    requires k in after && k in before
    ensures before.Keys - (after - {k}).Keys == (before.Keys - after.Keys) + {k}
  {
    assert (after - {k}).Keys == after.Keys - {k};
  }

  /** Evicting the oldest remaining entry keeps the eviction least recently used first. */
  lemma EvictOldest(before: map<string, Entry>, after: map<string, Entry>, k: string)
    requires Evicted(before, after) && IsOldest(after, k)
    ensures Evicted(before, after - {k})
  {
  }

  /** Removing one more signature's directory extends the set of removed ones. */
  lemma RemoveOneMore(disk0: Disk, disk: Disk, sigs: set<string>, k: string)
    requires DirsRemoved(disk0, disk, sigs) && HasDir(disk, k)
    ensures DirsRemoved(disk0, RemoveDir(disk, k), sigs + {k})
  {
  }

  /** Deleting a directory that is already gone also extends the set of removed ones. */
  lemma RemoveAnother(disk0: Disk, disk: Disk, sigs: set<string>, k: string)
    requires DirsRemoved(disk0, disk, sigs)
    ensures DirsRemoved(disk0, RemoveIfPresent(disk, k), sigs + {k})
  {
    if HasDir(disk, k) {
      RemoveOneMore(disk0, disk, sigs, k);
    }
  }

  /** Every pair of directory names under CACHEDIR. */
  function AllDirs(disk: Disk): set<(string, string)>
  {
    set x, y | x in disk && y in disk[x] :: (x, y)
  }

  /** The index entry for a directory: its mtime and the summed size of its files. */
  ghost function DirEntry(dir: SigDir): Entry
  {
    Entry(dir.mtime, Sum(dir.files))
  }

  /**
   * flist indexes exactly the directories among `seen` that the scan keeps:
   * each key is the name of one of them, with that directory's entry.
   */
  ghost predicate IndexedFrom(disk: Disk, flist: map<string, Entry>, seen: set<(string, string)>, keep: set<(string, string)>)
  {
    && (forall y :: y in flist <==> exists x :: (x, y) in seen && (x, y) in keep)
    && (forall y :: y in flist ==> exists x :: (x, y) in seen && (x, y) in keep && x in disk && y in disk[x] && flist[y] == DirEntry(disk[x][y]))
  }

  /** Moving one directory from the unvisited to the visited ones keeps them a partition. */
  lemma ScanMove(rest: set<(string, string)>, seen: set<(string, string)>, p: (string, string))
    requires p in rest && rest !! seen
    ensures (rest - {p}) !! (seen + {p}) && (rest - {p}) + (seen + {p}) == rest + seen
    ensures |rest - {p}| < |rest|
  {
  }

  /** Visiting one more directory keeps the index exact for what has been seen. */
  lemma IndexStep(disk: Disk, flist: map<string, Entry>, seen: set<(string, string)>, keep: set<(string, string)>, x: string, y: string)
    requires IndexedFrom(disk, flist, seen, keep) && x in disk && y in disk[x]
    ensures (x, y) in keep ==> IndexedFrom(disk, flist[y := DirEntry(disk[x][y])], seen + {(x, y)}, keep)
    ensures (x, y) !in keep ==> IndexedFrom(disk, flist, seen + {(x, y)}, keep)
  {
    var seen' := seen + {(x, y)};
    if (x, y) in keep {
      var flist' := flist[y := DirEntry(disk[x][y])];
      forall z | z in flist'
        ensures exists w :: (w, z) in seen' && (w, z) in keep && w in disk && z in disk[w] && flist'[z] == DirEntry(disk[w][z])
      {
        if z == y {
          assert (x, z) in seen';
        } else {
          var w :| (w, z) in seen && (w, z) in keep && w in disk && z in disk[w] && flist[z] == DirEntry(disk[w][z]);
          assert (w, z) in seen';
        }
      }
      forall z | exists w :: (w, z) in seen' && (w, z) in keep
        ensures z in flist'
      {
        var w :| (w, z) in seen' && (w, z) in keep;
        if z != y {
          assert (w, z) in seen;
        }
      }
    } else {
      forall z | z in flist
        ensures exists w :: (w, z) in seen' && (w, z) in keep && w in disk && z in disk[w] && flist[z] == DirEntry(disk[w][z])
      {
        var w :| (w, z) in seen && (w, z) in keep && w in disk && z in disk[w] && flist[z] == DirEntry(disk[w][z]);
        assert (w, z) in seen';
      }
      forall z | exists w :: (w, z) in seen' && (w, z) in keep
        ensures z in flist
      {
        var w :| (w, z) in seen' && (w, z) in keep;
        assert (w, z) in seen;
      }
    }
  }

  /** Setting the mtime of CACHEDIR/<shard>/<sig>: its mtime becomes `now`, nothing else changes. */
  function Touch(disk: Disk, sig: string, now: int): (d: Disk)
    requires HasDir(disk, sig)
    ensures HasDir(d, sig) && DirAt(d, sig) == DirAt(disk, sig).(mtime := now)
    ensures d.Keys == disk.Keys
    ensures forall x, y :: x in disk && y in disk[x] && (x, y) != (ShardOf(sig), sig) ==> y in d[x] && d[x][y] == disk[x][y]
    ensures forall x, y :: x in d && y in d[x] ==> y in disk[x]
  {
    var x := ShardOf(sig);
    disk[x := disk[x][sig := disk[x][sig].(mtime := now)]]
  }

  /**
   * What a server writes back for one command: nothing, a header, a header
   * followed by a file of `size` bytes, or a header followed by text.
   */
  datatype Reply =
    | Silent
    | Header(header: string)
    | WithData(header: string, size: nat)
    | WithText(header: string, text: string)

  /** The index and CACHEDIR together, as they stand between two commands. */
  datatype Snapshot = Snapshot(flist: map<string, Entry>, disk: Disk)
}
