/** Byte-level normalisation of a unix-style path: runs of '/' collapse to
    one and "/./" collapses to "/", but ".." is kept, since removing it
    correctly would mean resolving symbolic links. */
module FilestorePath {
  import opened Base

  const Slash: Byte := 0x2F
  const Dot: Byte := 0x2E

  /** p[j] is the '.' of a "/./" segment. */
  predicate LoneDot(p: Bytes, j: int)
  {
    0 < j && j + 1 < |p| && p[j - 1] == Slash && p[j] == Dot && p[j + 1] == Slash
  }

  /** A byte the normalisation never drops: neither a separator nor the dot
      of a "/./" segment. */
  predicate Essential(p: Bytes, j: int)
    requires 0 <= j < |p|
  {
    p[j] != Slash && !LoneDot(p, j)
  }

  /** r consists of the bytes of p at the strictly increasing positions idx. */
  ghost predicate Embeds(p: Bytes, r: Bytes, idx: seq<nat>)
  {
    && |idx| == |r|
    && (forall k :: 0 <= k < |idx| ==> idx[k] < |p| && r[k] == p[idx[k]])
    && (forall k, l :: 0 <= k < l < |idx| ==> idx[k] < idx[l])
  }

  /** p[j] is a '/' that follows a '/'. */
  predicate DoubleSlash(p: Bytes, j: int)
  {
    0 < j < |p| && p[j - 1] == Slash && p[j] == Slash
  }

  /** Neither "//" nor "/./" occurs in p. */
  predicate Clean(p: Bytes)
  {
    && (forall j :: 0 <= j < |p| ==> !DoubleSlash(p, j))
    && (forall j :: 0 <= j < |p| ==> !LoneDot(p, j))
  }

  /** Every essential byte of p is among the positions idx. */
  ghost predicate KeepsEssential(p: Bytes, idx: seq<nat>)
  {
    forall j :: 0 <= j < |p| && Essential(p, j) ==> j in idx
  }

  /** Appending a byte keeps a path clean unless it completes "//" or "/./". */
  lemma AppendClean(buf: Bytes, b: Byte)
    requires Clean(buf) && buf != []
    requires !(buf[|buf| - 1] == Slash && b == Slash)
    requires !(|buf| >= 2 && buf[|buf| - 2] == Slash && buf[|buf| - 1] == Dot && b == Slash)
    ensures Clean(buf + [b])
  {
    var r := buf + [b];
    forall j | 0 <= j < |r| ensures !DoubleSlash(r, j) {
      if 0 < j < |buf| {
        assert !DoubleSlash(buf, j);
        assert r[j - 1] == buf[j - 1] && r[j] == buf[j];
      }
    }
    forall j | 0 <= j < |r| ensures !LoneDot(r, j) {
      if 0 < j && j + 2 < |r| {
        assert r[j - 1] == buf[j - 1] && r[j] == buf[j] && r[j + 1] == buf[j + 1];
        assert !LoneDot(buf, j);
      }
    }
  }

  /** A byte essential to a path is essential to every prefix holding it. */
  lemma PrefixEssential(p: Bytes, n: nat, j: nat)
    requires j < n <= |p| && Essential(p, j)
    ensures Essential(p[..n], j)
  {
  }

  /** Bytes i..next-1 of p, each kept or inessential, extend the positions
      kept so far. */
  lemma KeepsStep(p: Bytes, i: nat, next: nat, idx: seq<nat>, idx2: seq<nat>)
    requires i < next <= |p|
    requires KeepsEssential(p[..i], idx)
    requires forall j :: j in idx ==> j in idx2
    requires forall j :: i <= j < next ==> j in idx2 || !Essential(p[..next], j)
    ensures KeepsEssential(p[..next], idx2)
  {
    forall j | 0 <= j < next && Essential(p[..next], j) ensures j in idx2 {
      if j < i {
        PrefixEssential(p[..next], i, j);
        assert p[..next][..i] == p[..i];
      }
    }
  }

  lemma EmbedsSnoc(p: Bytes, r: Bytes, idx: seq<nat>, i: nat)
    requires Embeds(p, r, idx) && i < |p| && (idx != [] ==> idx[|idx| - 1] < i)
    ensures Embeds(p, r + [p[i]], idx + [i])
  {
  }

  /** Where the loop of CleanPath stands after the bytes before i. */
  ghost predicate Progress(path: Bytes, i: nat, buf: Bytes, idx: seq<nat>)
  {
    && 1 <= i <= |path|
    && buf != [] && buf[0] == path[0]
    && buf[|buf| - 1] == path[i - 1]
    && (i < |path| && |buf| >= 2 && buf[|buf| - 2] == Slash && buf[|buf| - 1] == Dot ==> path[i] != Slash)
    && Embeds(path, buf, idx) && idx[|idx| - 1] < i
    && KeepsEssential(path[..i], idx)
    && Clean(buf)
    && |buf| <= i
    && (Clean(path) ==> buf == path[..i])
  }

  lemma ProgressStart(path: Bytes)
    requires path != []
    ensures Progress(path, 1, [path[0]], [0])
  {
  }

  /** A '/' right after a '/' is dropped. */
  lemma ProgressSkipSlash(path: Bytes, i: nat, buf: Bytes, idx: seq<nat>)
    requires Progress(path, i, buf, idx) && i < |path|
    requires path[i] == Slash && path[i - 1] == Slash
    ensures Progress(path, i + 1, buf, idx)
  {
    assert DoubleSlash(path, i) && !Clean(path);
    KeepsStep(path, i, i + 1, idx, idx);
  }

  /** The "./" of a "/./" is dropped. */
  lemma ProgressSkipDot(path: Bytes, i: nat, buf: Bytes, idx: seq<nat>)
    requires Progress(path, i, buf, idx) && i + 1 < |path|
    requires path[i] == Dot && path[i - 1] == Slash && path[i + 1] == Slash
    ensures Progress(path, i + 2, buf, idx)
  {
    assert LoneDot(path, i) && !Clean(path);
    assert LoneDot(path[..i + 2], i);
    KeepsStep(path, i, i + 2, idx, idx);
  }

  /** Any other byte is copied. */
  lemma ProgressKeep(path: Bytes, i: nat, buf: Bytes, idx: seq<nat>)
    requires Progress(path, i, buf, idx) && i < |path|
    requires !(path[i] == Slash && path[i - 1] == Slash)
    requires !(path[i] == Dot && path[i - 1] == Slash && i + 1 < |path| && path[i + 1] == Slash)
    ensures Progress(path, i + 1, buf + [path[i]], idx + [i])
  {
    AppendClean(buf, path[i]);
    EmbedsSnoc(path, buf, idx, i);
    KeepsStep(path, i, i + 1, idx, idx + [i]);
    assert path[..i + 1] == path[..i] + [path[i]];
  }

  /** r is p with some inessential bytes dropped and nothing else changed. */
  ghost predicate DropsOnlyInessential(p: Bytes, r: Bytes)
  {
    exists idx :: Embeds(p, r, idx) && KeepsEssential(p, idx)
  }

  /** The positions idx witness that r is p with only inessential bytes dropped. */
  lemma Dropped(p: Bytes, r: Bytes, idx: seq<nat>)
    requires Embeds(p, r, idx) && KeepsEssential(p, idx)
    ensures DropsOnlyInessential(p, r)
  {
  }

  /** What a walk over every byte has established. */
  lemma ProgressDone(path: Bytes, buf: Bytes, idx: seq<nat>)
    requires Progress(path, |path|, buf, idx)
    ensures buf != [] && buf[0] == path[0]
    ensures |buf| <= |path|
    ensures DropsOnlyInessential(path, buf)
    ensures Clean(buf)
    ensures Clean(path) ==> buf == path
  {
    assert path[..|path|] == path;
    Dropped(path, buf, idx);
  }

  /** The bytes CleanPath writes for path[i..], given that the bytes before
      i are already walked: a '/' after a '/' is skipped, the "./" of a
      "/./" is skipped, every other byte is copied. */
  function CleanedFrom(path: Bytes, i: nat): Bytes
    requires 1 <= i
    decreases |path| - i
  {
    if i >= |path| then []
    else if path[i] == Slash && path[i - 1] == Slash then CleanedFrom(path, i + 1)
    else if path[i] == Dot && path[i - 1] == Slash && i + 1 < |path| && path[i + 1] == Slash then CleanedFrom(path, i + 2)
    else [path[i]] + CleanedFrom(path, i + 1)
  }

  /** The normalised path: the first byte, then what the walk keeps. */
  function Cleaned(path: Bytes): Bytes
  {
    if path == [] then [] else [path[0]] + CleanedFrom(path, 1)
  }

  /** A byte the walk copies comes out in front of what follows it. */
  lemma KeepStep(path: Bytes, i: nat, buf: Bytes)
    requires 1 <= i < |path|
    requires !(path[i] == Slash && path[i - 1] == Slash)
    requires !(path[i] == Dot && path[i - 1] == Slash && i + 1 < |path| && path[i + 1] == Slash)
    ensures buf + [path[i]] + CleanedFrom(path, i + 1) == buf + CleanedFrom(path, i)
  {
  }

  /** Walking on from any point of the walk reaches its end state. */
  lemma {:induction false} ProgressTo(path: Bytes, i: nat, buf: Bytes, idx: seq<nat>) returns (out: Bytes, idx': seq<nat>)
    requires Progress(path, i, buf, idx)
    ensures out == buf + CleanedFrom(path, i)
    ensures Progress(path, |path|, out, idx')
    decreases |path| - i
  {
    if i == |path| {
      out, idx' := buf, idx;
      assert out == buf + CleanedFrom(path, i);
    } else if path[i] == Slash && path[i - 1] == Slash {
      ProgressSkipSlash(path, i, buf, idx);
      out, idx' := ProgressTo(path, i + 1, buf, idx);
    } else if path[i] == Dot && path[i - 1] == Slash && i + 1 < |path| && path[i + 1] == Slash {
      ProgressSkipDot(path, i, buf, idx);
      out, idx' := ProgressTo(path, i + 2, buf, idx);
    } else {
      ProgressKeep(path, i, buf, idx);
      out, idx' := ProgressTo(path, i + 1, buf + [path[i]], idx + [i]);
      KeepStep(path, i, buf);
    }
  }

  /** The walk from the first byte to the end. */
  lemma WalkAll(path: Bytes) returns (idx: seq<nat>)
    requires path != []
    ensures Progress(path, |path|, Cleaned(path), idx)
  {
    ProgressStart(path);
    var out;
    out, idx := ProgressTo(path, 1, [path[0]], [0]);
  }

  /** The normalised path keeps the first byte, is never longer, drops only
      separators and the dots of "/./" segments (so every ".." survives),
      and equals the input when the input holds neither "//" nor "/./". */
  lemma CleanedMeaning(path: Bytes)
    ensures path == [] ==> Cleaned(path) == []
    ensures path != [] ==> Cleaned(path) != [] && Cleaned(path)[0] == path[0]
    ensures |Cleaned(path)| <= |path|
    ensures DropsOnlyInessential(path, Cleaned(path))
    ensures Clean(path) ==> Cleaned(path) == path
  {
    if path == [] {
      Dropped(path, [], []);
    } else {
      var idx := WalkAll(path);
      ProgressDone(path, Cleaned(path), idx);
    }
  }

  /** The normalised path holds neither "//" nor "/./". */
  lemma CleanedIsClean(path: Bytes)
    ensures Clean(Cleaned(path))
  {
    if path != [] {
      var idx := WalkAll(path);
      var r := Cleaned(path);
      ProgressDone(path, r, idx);
      forall j | 0 <= j < |r| ensures !DoubleSlash(r, j) && !LoneDot(r, j) {}
    }
  }

  /** CleanPath: copies the first byte, then every byte except a '/' that
      follows a '/' in the input and the "./" of a "/./" in the input. */
  method CleanPath(path: Bytes) returns (res: Bytes)
    ensures res == Cleaned(path)
  {
    if path == [] {
      return [];
    }
    var buf: Bytes := [path[0]];
    var i := 1;
    while i < |path|
      invariant 1 <= i <= |path| + 1
      invariant buf + CleanedFrom(path, i) == Cleaned(path)
    {
      if path[i] == Slash && path[i - 1] == Slash {
        // the second slash of a pair is dropped
      } else if path[i] == Dot && path[i - 1] == Slash && i + 1 < |path| && path[i + 1] == Slash {
        // "/./": the dot and the slash after it are dropped
        i := i + 1;
      } else {
        buf := buf + [path[i]];
      }
      i := i + 1;
    }
    assert CleanedFrom(path, i) == [];
    res := buf;
    // the source returns its argument itself when nothing changed; the
    // value is the same either way
  }

  /** Three paths cleaned: "a//b/./c" becomes "a/b/c", while "" and "abc"
      are already clean and stay as they are. */
  lemma CleanPathExamples()
    ensures Cleaned([0x61, Slash, Slash, 0x62, Slash, Dot, Slash, 0x63]) == [0x61, Slash, 0x62, Slash, 0x63]
    ensures Cleaned([]) == []
    ensures Cleaned([0x61, 0x62, 0x63]) == [0x61, 0x62, 0x63]
  {
    var p: Bytes := [0x61, Slash, Slash, 0x62, Slash, Dot, Slash, 0x63];
    assert CleanedFrom(p, 8) == [];
    assert CleanedFrom(p, 7) == [0x63];
    assert CleanedFrom(p, 4) == [Slash, 0x63];
    assert CleanedFrom(p, 2) == [0x62, Slash, 0x63];
    var q: Bytes := [0x61, 0x62, 0x63];
    assert CleanedFrom(q, 2) == [0x63];
  }
}
