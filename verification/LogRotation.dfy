/** The size-rotating log appender over its directory.

    A directory maps 0 to the current file and `k > 0` to the backup numbered `k`. `Rotated` says
    what a rotation leaves of any directory; `Segments` is the simple picture of a run, the list of
    all files ever filled, of which the directory shows the newest ones. */
module LogRotation {
  import opened Common

  type Bytes = string

  type Directory = map<nat, Bytes>

  // ----- One rotation of any directory -----

  function At(d: Directory, k: nat): Option<Bytes> { if k in d then Some(d[k]) else None }

  lemma SameDirectory(a: Directory, b: Directory)
    requires forall k: nat :: At(a, k) == At(b, k)
    ensures a == b
  {
    forall k: nat ensures k in a <==> k in b
      ensures k in a && k in b ==> a[k] == b[k]
    {
      assert At(a, k) == At(b, k);
    }
  }

  /** Some number between `backups` and `k` is unused: the clean-up stops before reaching `k`. */
  ghost predicate BeyondGap(d: Directory, backups: nat, k: nat) { exists j: nat :: backups < j < k && j !in d }

  /** What file `k` holds after a rotation: the current file starts empty, every backup is the file one number
      below it (the oldest stays when there is none), and the first run of numbers past the last backup is deleted. */
  ghost function AfterRotation(d: Directory, backups: nat, k: nat): Option<Bytes> {
    if k == 0 then Some([])
    else if k <= backups then (if k - 1 in d || k < backups then At(d, k - 1) else At(d, k))
    else if BeyondGap(d, backups, k) then At(d, k)
    else None
  }

  ghost function Rotated(d: Directory, backups: nat): Directory {
    map k: nat | k in d.Keys + {0} + (set j: nat | j in d :: j + 1) && AfterRotation(d, backups, k).Some? ::
      AfterRotation(d, backups, k).value
  }

  lemma RotatedAt(d: Directory, backups: nat, k: nat)
    ensures At(Rotated(d, backups), k) == AfterRotation(d, backups, k)
  {
    if k > 0 && k - 1 in d {
      assert k in set j: nat | j in d :: j + 1;
    }
  }

  ghost function Written(d: Directory, maxSize: nat, backups: nat, buf: Bytes): Directory
    requires 0 in d
  {
    if |d[0]| + |buf| > maxSize then Rotated(d, backups)[0 := buf] else d[0 := d[0] + buf]
  }

  /** File `k` after the renames of every backup numbered `i` or more and below `backups`. */
  ghost function AfterShift(d: Directory, backups: nat, i: nat, k: nat): Option<Bytes> {
    if k < i || k > backups || i >= backups then At(d, k)
    else if k == i then None
    else if k - 1 in d || k < backups then At(d, k - 1)
    else At(d, k)
  }

  datatype OpenError = ZeroSize | ZeroBackups

  class SizeRotatingAppender {
    const maxSize: nat
    const backups: nat
    var dir: Directory

    ghost predicate Valid()
      reads this
    {
      maxSize > 0 && backups > 0 && 0 in dir
    }

    /** Opens the current file of an existing directory, creating it when missing. */
    constructor (maxSize: nat, backups: nat, dir: Directory)
      requires maxSize > 0 && backups > 0
      ensures Valid() && this.maxSize == maxSize && this.backups == backups
      ensures this.dir == if 0 in dir then dir else dir[0 := []]
    {
      this.maxSize := maxSize;
      this.backups := backups;
      this.dir := if 0 in dir then dir else dir[0 := []];
    }

    /** Checks the settings, then opens; what it opens on a fresh directory is where every run starts. */
    static method New(maxSize: nat, backups: nat, dir: Directory) returns (r: Result<SizeRotatingAppender, OpenError>)
      ensures r == Failure(ZeroSize) <==> maxSize == 0
      ensures r == Failure(ZeroBackups) <==> maxSize > 0 && backups == 0
      ensures r.Success? ==>
                && fresh(r.value) && r.value.Valid() && r.value.maxSize == maxSize && r.value.backups == backups
                && r.value.dir.Keys == dir.Keys + {0}
                && (forall k | k in dir :: r.value.dir[k] == dir[k])
                && (dir == map[] ==> r.value.dir == Run(maxSize, backups, []))
    {
      if maxSize == 0 {
        return Failure(ZeroSize);
      }
      if backups == 0 {
        return Failure(ZeroBackups);
      }
      var appender := new SizeRotatingAppender(maxSize, backups, dir);
      r := Success(appender);
    }

    method ShiftBackups()
      requires Valid()
      modifies this
      ensures forall k: nat :: At(dir, k) == AfterShift(old(dir), backups, 1, k)
    {
      for i := backups downto 1
        invariant forall k: nat :: At(dir, k) == AfterShift(old(dir), backups, i, k)
      {
        ghost var before := dir;
        assert At(before, i) == At(old(dir), i);
        if i in dir {
          dir := dir[i + 1 := dir[i]] - {i};
        }
        forall k: nat ensures At(dir, k) == AfterShift(old(dir), backups, i, k) {
          assert At(before, k) == AfterShift(old(dir), backups, i + 1, k);
        }
      }
    }

    /** Deletes backups past the last one kept, up to the first unused number. */
    method RemoveExcess()
      modifies this
      ensures forall k: nat ::
                At(dir, k) == if k <= backups || BeyondGap(old(dir), backups, k) then At(old(dir), k) else None
    {
      var i := backups + 1;
      while i in dir
        invariant i > backups
        invariant forall k: nat | backups < k < i :: k in old(dir)
        invariant forall k: nat :: At(dir, k) == if backups < k < i then None else At(old(dir), k)
        decreases dir.Keys
      {
        ghost var before := dir;
        assert At(before, i) == At(old(dir), i);
        dir := dir - {i};
        i := i + 1;
        forall k: nat ensures At(dir, k) == if backups < k < i then None else At(old(dir), k) {
          assert At(before, k) == if backups < k < i - 1 then None else At(old(dir), k);
        }
      }
      assert At(dir, i) == At(old(dir), i);
      assert i !in old(dir);
    }

    method Rotate()
      requires Valid()
      modifies this
      ensures Valid() && dir == Rotated(old(dir), backups)
    {
      ShiftBackups();
      ghost var shifted := dir;
      assert At(shifted, 0) == At(old(dir), 0);
      dir := dir[1 := dir[0]] - {0};
      ghost var renamed := dir;
      forall j: nat | j > backups ensures j in renamed <==> j in old(dir) {
        assert At(shifted, j) == At(old(dir), j);
      }
      RemoveExcess();
      ghost var cleaned := dir;
      dir := dir[0 := []];
      forall k: nat ensures At(dir, k) == At(Rotated(old(dir), backups), k) {
        RotatedAt(old(dir), backups, k);
        assert At(shifted, k) == AfterShift(old(dir), backups, 1, k);
        assert At(cleaned, k) == if k <= backups || BeyondGap(renamed, backups, k) then At(renamed, k) else None;
      }
      SameDirectory(dir, Rotated(old(dir), backups));
    }

    method Write(buf: Bytes) returns (n: nat)
      requires Valid()
      modifies this
      ensures Valid() && n == |buf| && dir == Written(old(dir), maxSize, backups, buf)
      ensures |old(dir)[0]| + |buf| <= maxSize ==> dir == old(dir)[0 := old(dir)[0] + buf]
      ensures |old(dir)[0]| + |buf| > maxSize ==> dir[0] == buf && 1 in dir && dir[1] == old(dir)[0]
    {
      if |dir[0]| + |buf| > maxSize {
        Rotate();
        RotatedAt(old(dir), backups, 0);
        RotatedAt(old(dir), backups, 1);
        assert At(dir, 1) == Some(old(dir)[0]);
      }
      assert [] + buf == buf;
      dir := dir[0 := dir[0] + buf];
      n := |buf|;
    }
  }

  /** What a rotation of any directory with a current file comes to: an empty current file, every file kept moves up one
      number with the oldest backup giving way, a backup with nothing below it to move up goes only when the last one is
      replaced, and the number past the last backup is free. */
  lemma RotationMoves(d: Directory, backups: nat, k: nat)
    requires backups > 0 && 0 in d
    ensures var r := Rotated(d, backups);
            && At(r, 0) == Some([]) && At(r, 1) == Some(d[0]) && backups + 1 !in r
            && (k < backups ==> At(r, k + 1) == (if k in d || k + 1 < backups then At(d, k) else At(d, k + 1)))
            && (k > backups && (exists j: nat :: backups < j < k && j !in d) ==> At(r, k) == At(d, k))
            && (k > backups && !(exists j: nat :: backups < j < k && j !in d) ==> At(r, k) == None)
  {
    RotatedAt(d, backups, 0);
    RotatedAt(d, backups, 1);
    RotatedAt(d, backups, backups + 1);
    RotatedAt(d, backups, k);
    RotatedAt(d, backups, k + 1);
  }

  // ----- Runs from a fresh directory -----

  ghost function Run(maxSize: nat, backups: nat, writes: seq<Bytes>): (d: Directory)
    ensures 0 in d
  {
    if writes == [] then map[0 := []]
    else Written(Run(maxSize, backups, writes[..|writes| - 1]), maxSize, backups, writes[|writes| - 1])
  }

  /** Every file ever filled, oldest first; the last is the current one. Each rotation starts a new segment. */
  ghost function Segments(maxSize: nat, writes: seq<Bytes>): (s: seq<Bytes>)
    ensures s != []
  {
    if writes == [] then [[]]
    else
      AddWrite(Segments(maxSize, writes[..|writes| - 1]), maxSize, writes[|writes| - 1])
  }

  ghost function AddWrite(s: seq<Bytes>, maxSize: nat, buf: Bytes): (t: seq<Bytes>)
    requires s != []
    ensures t != []
  {
    var last := s[|s| - 1];
    if |last| + |buf| > maxSize then s + [buf] else s[|s| - 1 := last + buf]
  }

  ghost function Flatten(parts: seq<Bytes>): Bytes {
    if parts == [] then [] else Flatten(parts[..|parts| - 1]) + parts[|parts| - 1]
  }

  /** The newest `backups + 1` segments under their numbers. */
  ghost function Window(s: seq<Bytes>, backups: nat): Directory {
    map k: nat | 0 <= k < Min(|s|, backups + 1) :: Newest(s, k)
  }

  ghost function Newest(s: seq<Bytes>, k: nat): Bytes
    requires k < |s|
  {
    s[|s| - 1 - k]
  }

  ghost function InWindow(s: seq<Bytes>, backups: nat, k: nat): Option<Bytes> {
    if k < Min(|s|, backups + 1) then Some(Newest(s, k)) else None
  }

  lemma WindowAt(s: seq<Bytes>, backups: nat, k: nat)
    ensures At(Window(s, backups), k) == InWindow(s, backups, k)
  {
    if k < Min(|s|, backups + 1) {
      assert Newest(s, k) == Newest(s, k);
    }
  }

  lemma RotateWindow(s: seq<Bytes>, backups: nat, buf: Bytes)
    requires s != [] && backups > 0
    ensures Rotated(Window(s, backups), backups)[0 := buf] == Window(s + [buf], backups)
  {
    var d := Window(s, backups);
    var r, w := Rotated(d, backups)[0 := buf], Window(s + [buf], backups);
    forall k: nat ensures At(r, k) == At(w, k) {
      RotatedAt(d, backups, k);
      WindowAt(s, backups, k);
      WindowAt(s + [buf], backups, k);
      if k > 0 {
        WindowAt(s, backups, k - 1);
      }
    }
    SameDirectory(r, w);
  }

  lemma AppendWindow(s: seq<Bytes>, backups: nat, buf: Bytes)
    requires s != []
    ensures 0 in Window(s, backups)
    ensures Window(s, backups)[0 := s[|s| - 1] + buf] == Window(s[|s| - 1 := s[|s| - 1] + buf], backups)
  {
    var t := s[|s| - 1 := s[|s| - 1] + buf];
    WindowAt(s, backups, 0);
    var d := Window(s, backups)[0 := s[|s| - 1] + buf];
    forall k: nat ensures At(d, k) == At(Window(t, backups), k) {
      WindowAt(s, backups, k);
      WindowAt(t, backups, k);
    }
    SameDirectory(d, Window(t, backups));
  }

  lemma WriteWindow(s: seq<Bytes>, maxSize: nat, backups: nat, buf: Bytes)
    requires s != [] && backups > 0
    ensures 0 in Window(s, backups)
    ensures Written(Window(s, backups), maxSize, backups, buf) == Window(AddWrite(s, maxSize, buf), backups)
  {
    WindowAt(s, backups, 0);
    RotateWindow(s, backups, buf);
    AppendWindow(s, backups, buf);
  }

  lemma FreshWindow(backups: nat)
    ensures Window([[]], backups) == map[0 := []]
  {
    forall k: nat ensures At(map[0 := []], k) == At(Window([[]], backups), k) {
      WindowAt([[]], backups, k);
    }
    SameDirectory(map[0 := []], Window([[]], backups));
  }

  /** The directory of any run shows exactly the newest segments. */
  lemma {:induction false} RunShowsNewest(maxSize: nat, backups: nat, writes: seq<Bytes>)
    requires backups > 0
    ensures Run(maxSize, backups, writes) == Window(Segments(maxSize, writes), backups)
  {
    if writes != [] {
      var before, buf := writes[..|writes| - 1], writes[|writes| - 1];
      RunShowsNewest(maxSize, backups, before);
      var s := Segments(maxSize, before);
      WriteWindow(s, maxSize, backups, buf);
    } else {
      FreshWindow(backups);
    }
  }

  lemma FlattenAppend(parts: seq<Bytes>, p: Bytes)
    ensures Flatten(parts + [p]) == Flatten(parts) + p
  {
    assert (parts + [p])[..|parts|] == parts;
  }

  lemma {:induction false} SegmentsKeepEverything(maxSize: nat, writes: seq<Bytes>)
    ensures Flatten(Segments(maxSize, writes)) == Flatten(writes)
  {
    if writes == [] {
      assert Segments(maxSize, writes)[..0] == [];
    } else {
      var before, buf := writes[..|writes| - 1], writes[|writes| - 1];
      SegmentsKeepEverything(maxSize, before);
      var s := Segments(maxSize, before);
      var init, last := s[..|s| - 1], s[|s| - 1];
      FlattenAppend(s, buf);
      FlattenAppend(init, last + buf);
      assert s[|s| - 1 := last + buf] == init + [last + buf];
      assert Flatten(init) + last + buf == Flatten(init) + (last + buf);
    }
  }

  lemma {:induction false} FlattenSplit(parts: seq<Bytes>, k: nat)
    requires k <= |parts|
    ensures Flatten(parts) == Flatten(parts[..k]) + Flatten(parts[k..])
    decreases |parts|
  {
    if k == |parts| {
      assert parts[..k] == parts && parts[k..] == [];
    } else {
      var init, last := parts[..|parts| - 1], parts[|parts| - 1];
      var a, b := parts[..k], init[k..];
      assert init[..k] == a && parts[k..] == b + [last];
      calc {
        Flatten(parts);
        Flatten(init) + last;
        { FlattenSplit(init, k); }
        Flatten(a) + Flatten(b) + last;
        Flatten(a) + (Flatten(b) + last);
        { FlattenAppend(b, last); }
        Flatten(a) + Flatten(b + [last]);
      }
    }
  }

  /** Every number up to `k` is in use. */
  ghost predicate InUse(d: Directory, k: nat) { forall j: nat | j <= k :: j in d }

  /** What is on disk, from backup `k` down to the current file. */
  ghost function OnDisk(d: Directory, k: nat): Bytes
    requires InUse(d, k)
  {
    if k == 0 then d[0] else d[k] + OnDisk(d, k - 1)
  }

  lemma FlattenCons(p: Bytes, parts: seq<Bytes>)
    ensures Flatten([p] + parts) == p + Flatten(parts)
  {
    FlattenSplit([p] + parts, 1);
    FlattenAppend([], p);
    assert ([p] + parts)[..1] == [] + [p] && ([p] + parts)[1..] == parts;
  }

  /** A directory that shows the newest segments reads as their concatenation. */
  lemma {:induction false} NewestOnDisk(d: Directory, s: seq<Bytes>, k: nat)
    requires k < |s| && InUse(d, k) && forall j: nat | j <= k :: At(d, j) == Some(Newest(s, j))
    ensures OnDisk(d, k) == Flatten(s[|s| - 1 - k..])
  {
    assert At(d, k) == Some(Newest(s, k));
    var from := |s| - 1 - k;
    var rest := s[from + 1..];
    assert s[from..] == [s[from]] + rest;
    FlattenCons(s[from], rest);
    if k == 0 {
      assert rest == [];
    } else {
      NewestOnDisk(d, s, k - 1);
    }
  }

  lemma WindowOnDisk(s: seq<Bytes>, backups: nat, k: nat)
    requires k < Min(|s|, backups + 1)
    ensures InUse(Window(s, backups), k)
    ensures OnDisk(Window(s, backups), k) == Flatten(s[|s| - 1 - k..])
  {
    var d := Window(s, backups);
    forall j: nat | j <= k ensures j in d && At(d, j) == Some(Newest(s, j)) {
      WindowAt(s, backups, j);
    }
    NewestOnDisk(d, s, k);
  }

  ghost predicate IsSuffix(part: Bytes, whole: Bytes) { |part| <= |whole| && whole[|whole| - |part|..] == part }

  /** The number of rotations a run performed. */
  ghost function Rotations(maxSize: nat, writes: seq<Bytes>): nat { |Segments(maxSize, writes)| - 1 }

  /** In every run from a fresh directory the numbers in use are 0 up to the last backup, at most `backups` of
      them; read from the oldest they are a contiguous suffix of everything written, all of it while there were
      no more than `backups` rotations. */
  lemma RotationKeepsNewest(maxSize: nat, backups: nat, writes: seq<Bytes>)
    requires backups > 0
    ensures var d := Run(maxSize, backups, writes);
            var last := Min(Rotations(maxSize, writes), backups);
            && (forall k: nat :: k in d <==> k <= last)
            && IsSuffix(OnDisk(d, last), Flatten(writes))
            && (Rotations(maxSize, writes) <= backups ==> OnDisk(d, last) == Flatten(writes))
  {
    RunShowsNewest(maxSize, backups, writes);
    SegmentsKeepEverything(maxSize, writes);
    var s := Segments(maxSize, writes);
    var last := Min(|s| - 1, backups);
    forall k: nat ensures k in Window(s, backups) <==> k <= last {
      WindowAt(s, backups, k);
    }
    WindowOnDisk(s, backups, last);
    FlattenSplit(s, |s| - 1 - last);
    if |s| - 1 <= backups {
      assert s[0..] == s;
    }
  }

  ghost function Longest(writes: seq<Bytes>): nat {
    if writes == [] then 0 else Max(Longest(writes[..|writes| - 1]), |writes[|writes| - 1]|)
  }

  lemma {:induction false} SegmentSizes(maxSize: nat, writes: seq<Bytes>)
    ensures forall k | 0 <= k < |Segments(maxSize, writes)| ::
              |Segments(maxSize, writes)[k]| <= Max(maxSize, Longest(writes))
  {
    if writes != [] {
      SegmentSizes(maxSize, writes[..|writes| - 1]);
    }
  }

  predicate Overfull(s: seq<Bytes>, k: nat, maxSize: nat)
    requires k + 1 < |s|
  {
    |s[k]| + |s[k + 1]| > maxSize
  }

  ghost predicate Packed(s: seq<Bytes>, maxSize: nat) { forall k | 0 <= k < |s| - 1 :: Overfull(s, k, maxSize) }

  lemma AddWritePacks(s: seq<Bytes>, maxSize: nat, buf: Bytes)
    requires s != [] && Packed(s, maxSize)
    ensures Packed(AddWrite(s, maxSize, buf), maxSize)
  {
    var t := AddWrite(s, maxSize, buf);
    forall k | 0 <= k < |t| - 1 ensures Overfull(t, k, maxSize) {
      assert k < |s| - 1 ==> Overfull(s, k, maxSize);
    }
  }

  /** No rotation comes early: two neighbouring segments together always exceed the limit. */
  lemma {:induction false} SegmentsPacked(maxSize: nat, writes: seq<Bytes>)
    ensures Packed(Segments(maxSize, writes), maxSize)
  {
    if writes != [] {
      SegmentsPacked(maxSize, writes[..|writes| - 1]);
      AddWritePacks(Segments(maxSize, writes[..|writes| - 1]), maxSize, writes[|writes| - 1]);
    }
  }

  /** No file outgrows the larger of the limit and the longest single write. */
  lemma FilesBounded(maxSize: nat, backups: nat, writes: seq<Bytes>, k: nat)
    requires backups > 0 && k in Run(maxSize, backups, writes)
    ensures |Run(maxSize, backups, writes)[k]| <= Max(maxSize, Longest(writes))
  {
    RunShowsNewest(maxSize, backups, writes);
    WindowAt(Segments(maxSize, writes), backups, k);
    SegmentSizes(maxSize, writes);
  }
}
