/** The cache of adapted images: paths packed into a byte map, and a parallel ring
    of descriptors and sizes indexed by a path's ordinal in the map
    (Utils.c:295-321, HandleImage.c:37-134), up to the wrap of either. */
module ImageCache {
  import opened CStrings

  const SIZE_FILE_LISTCACHE: nat := 16384
  const FDS: nat := 128

  /** The buffer into which the search copies a path. */
  const PATH_BUFFER: nat := 128

  /** What a miss records. */
  datatype Stored = Stored(path: string, fd: int, size: int)

  predicate Storable(path: string) {
    path != "" && |path| < PATH_BUFFER && Free(path, NUL)
  }

  /** The paths one after the other, each with its terminator. */
  function Pack(stored: seq<Stored>): string {
    if stored == [] then ""
    else Pack(stored[..|stored| - 1]) + stored[|stored| - 1].path + [NUL]
  }

  /** The C string that starts at `off`. */
  function StrAt(bytes: seq<char>, off: nat): (s: string)
    requires off <= |bytes|
    decreases |bytes| - off
  {
    if off == |bytes| || bytes[off] == NUL then "" else [bytes[off]] + StrAt(bytes, off + 1)
  }

  /** The ordinal of the first stored path that contains `wanted`, from `i` on. */
  function FirstMatch(stored: seq<Stored>, wanted: string, i: nat): (k: nat)
    requires i <= |stored|
    ensures i <= k <= |stored|
    ensures forall m | i <= m < k :: !Contains(stored[m].path, wanted)
    ensures k < |stored| ==> Contains(stored[k].path, wanted)
    decreases |stored| - i
  {
    if i == |stored| || Contains(stored[i].path, wanted) then i else FirstMatch(stored, wanted, i + 1)
  }

  /** A hit stays the first match however many paths are stored after it. */
  lemma {:induction false} FirstMatchStable(stored: seq<Stored>, more: seq<Stored>, wanted: string, i: nat)
    requires i <= |stored| && FirstMatch(stored, wanted, i) < |stored|
    ensures FirstMatch(stored + more, wanted, i) == FirstMatch(stored, wanted, i)
    decreases |stored| - i
  {
    if Contains(stored[i].path, wanted) {
    } else {
      FirstMatchStable(stored, more, wanted, i + 1);
    }
  }

  /** As long as the map and the ring have not wrapped. */
  predicate Unwrapped(stored: seq<Stored>) {
    && |stored| <= FDS && |Pack(stored)| <= SIZE_FILE_LISTCACHE
    && forall j | 0 <= j < |stored| :: Storable(stored[j].path)
  }

  /** Before more was stored nothing had wrapped either. */
  lemma UnwrappedBefore(stored: seq<Stored>, stored': seq<Stored>)
    requires stored <= stored' && Unwrapped(stored')
    ensures Unwrapped(stored)
  {
    PackPrefix(stored', |stored|);
    assert stored'[..|stored|] == stored;
  }

  // Decoding the map.

  lemma {:induction false} PackPrefix(stored: seq<Stored>, i: nat)
    requires i <= |stored|
    ensures Pack(stored[..i]) <= Pack(stored)
    decreases |stored| - i
  {
    if i == |stored| {
      assert stored[..i] == stored;
    } else {
      PackPrefix(stored[..|stored| - 1], i);
      assert stored[..|stored| - 1][..i] == stored[..i];
    }
  }

  lemma PackNext(stored: seq<Stored>, i: nat)
    requires i < |stored|
    ensures Pack(stored[..i + 1]) == Pack(stored[..i]) + stored[i].path + [NUL]
    ensures Pack(stored[..i + 1]) <= Pack(stored)
  {
    assert stored[..i + 1][..i] == stored[..i];
    PackPrefix(stored, i + 1);
  }

  lemma {:induction false} StrAtIs(bytes: seq<char>, off: nat, s: string)
    requires off + |s| < |bytes| && bytes[off..off + |s|] == s
    requires Free(s, NUL) && bytes[off + |s|] == NUL
    ensures StrAt(bytes, off) == s
    decreases |s|
  {
    if s == "" {
    } else {
      assert bytes[off] == bytes[off..off + |s|][0] == s[0];
      assert bytes[off + 1..off + 1 + |s[1..]|] == bytes[off..off + |s|][1..] == s[1..];
      StrAtIs(bytes, off + 1, s[1..]);
    }
  }

  /** The map starts with the packed paths, and the rest of it is zero. */
  ghost predicate Encodes(bytes: seq<char>, stored: seq<Stored>) {
    && |bytes| == SIZE_FILE_LISTCACHE
    && Pack(stored) <= bytes
    && (forall k | |Pack(stored)| <= k < |bytes| :: bytes[k] == NUL)
    && (forall j | 0 <= j < |stored| :: Storable(stored[j].path))
  }

  /** Reading the map from the start of the i-th string yields the i-th path. */
  lemma DecodePath(bytes: seq<char>, stored: seq<Stored>, i: nat)
    requires Encodes(bytes, stored) && i < |stored|
    ensures |Pack(stored[..i])| < |bytes|
    ensures StrAt(bytes, |Pack(stored[..i])|) == stored[i].path
    ensures |Pack(stored[..i + 1])| == |Pack(stored[..i])| + |stored[i].path| + 1 <= |Pack(stored)|
  {
    PackNext(stored, i);
    var off, p := |Pack(stored[..i])|, stored[i].path;
    var packed := Pack(stored[..i + 1]);
    assert packed <= bytes;
    assert packed[off..off + |p|] == p && packed[off + |p|] == NUL;
    assert bytes[off..off + |p|] == packed[off..off + |p|];
    StrAtIs(bytes, off, p);
  }

  lemma DecodeTail(bytes: seq<char>, stored: seq<Stored>, off: nat)
    requires Encodes(bytes, stored) && |Pack(stored)| <= off < |bytes|
    ensures StrAt(bytes, off) == ""
  {
  }

  /** Where the search is after i strings: past the paths it meets one empty string per byte. */
  function Offset(stored: seq<Stored>, i: nat): nat {
    if i <= |stored| then |Pack(stored[..i])| else |Pack(stored)| + (i - |stored|)
  }

  lemma NextOffset(bytes: seq<char>, stored: seq<Stored>, i: nat)
    requires Encodes(bytes, stored) && Offset(stored, i) < |bytes|
    ensures StrAt(bytes, Offset(stored, i)) == if i < |stored| then stored[i].path else ""
    ensures Offset(stored, i + 1) == Offset(stored, i) + |StrAt(bytes, Offset(stored, i))| + 1
    ensures i < |stored| ==> Offset(stored, i + 1) <= |Pack(stored)|
  {
    if i < |stored| {
      DecodePath(bytes, stored, i);
    } else {
      assert stored[..|stored|] == stored;
      DecodeTail(bytes, stored, Offset(stored, i));
    }
  }

  function MatchFrom(stored: seq<Stored>, wanted: string, i: nat): nat {
    FirstMatch(stored, wanted, if i < |stored| then i else |stored|)
  }

  /** One turn of the search. */
  lemma SearchStep(bytes: seq<char>, stored: seq<Stored>, wanted: string, i: nat)
    requires Encodes(bytes, stored) && Offset(stored, i) < |bytes|
    requires stored != [] && (i > 0 ==> wanted != "")
    ensures var buf := StrAt(bytes, Offset(stored, i));
            && Offset(stored, i + 1) == Offset(stored, i) + |buf| + 1
            && (i + 1 < |stored| ==> Offset(stored, i + 1) < |bytes|)
            && (Contains(buf, wanted) ==> i < |stored| && MatchFrom(stored, wanted, i) == i)
            && (!Contains(buf, wanted) ==>
                  wanted != "" && MatchFrom(stored, wanted, i) == MatchFrom(stored, wanted, i + 1))
  {
    NextOffset(bytes, stored, i);
    if i + 1 < |stored| {
      DecodePath(bytes, stored, i + 1);
    }
    if wanted == "" {
      assert OccursAt(StrAt(bytes, Offset(stored, i)), wanted, 0);
    }
  }

  lemma EmptyIffFirstByteZero(bytes: seq<char>, stored: seq<Stored>)
    requires Encodes(bytes, stored)
    ensures bytes[0] == NUL <==> stored == []
  {
    if stored != [] {
      DecodePath(bytes, stored, 0);
    }
  }

  /** The map, and where the next path goes. */
  ghost predicate MapHolds(bytes: seq<char>, seekCache: nat, stored: seq<Stored>) {
    Encodes(bytes, stored) && seekCache == |Pack(stored)| % SIZE_FILE_LISTCACHE
  }

  /** The pair of the j-th path is at ring index j. */
  predicate RingHolds(fds: seq<int>, sizes: seq<int>, e: nat, stored: seq<Stored>) {
    && |fds| == |sizes| == FDS
    && |stored| <= FDS && e == |stored| % FDS
    && forall j | 0 <= j < |stored| :: fds[j] == stored[j].fd && sizes[j] == stored[j].size
  }

  /** Map and ring only hold records together while neither has wrapped. */
  lemma HeldIsUnwrapped(bytes: seq<char>, seekCache: nat, fds: seq<int>, sizes: seq<int>, e: nat, stored: seq<Stored>)
    requires MapHolds(bytes, seekCache, stored) && RingHolds(fds, sizes, e, stored)
    ensures Unwrapped(stored)
  {
  }

  /** One more pair leaves every earlier one at its ordinal exactly when there is a
      cell left, or the pair is the first one over again. */
  lemma PairsStayExactly(fds: seq<int>, sizes: seq<int>, e: nat, stored: seq<Stored>, record: Stored)
    requires RingHolds(fds, sizes, e, stored)
    ensures var fds', sizes' := fds[e := record.fd], sizes[e := record.size];
            (forall j | 0 <= j < |stored| :: fds'[j] == stored[j].fd && sizes'[j] == stored[j].size)
            <==> |stored| < FDS || (record.fd == stored[0].fd && record.size == stored[0].size)
  {
    var fds', sizes' := fds[e := record.fd], sizes[e := record.size];
    if |stored| == FDS {
      assert e == 0 && fds'[0] == record.fd && sizes'[0] == record.size;
    }
  }

  /** The bytes after a path and its terminator were written at `off`. */
  function Written(bytes: seq<char>, off: nat, path: string): seq<char>
    requires off + |path| < |bytes|
  {
    bytes[..off] + path + [NUL] + bytes[off + |path| + 1..]
  }

  lemma MapNext(bytes: seq<char>, seekCache: nat, stored: seq<Stored>, record: Stored)
    requires MapHolds(bytes, seekCache, stored) && Storable(record.path)
    requires |Pack(stored)| + |record.path| + 1 <= |bytes|
    ensures seekCache + |record.path| < |bytes|
    ensures MapHolds(Written(bytes, seekCache, record.path),
                     (seekCache + |record.path| + 1) % SIZE_FILE_LISTCACHE, stored + [record])
  {
    assert (stored + [record])[..|stored|] == stored;
    assert bytes[..seekCache] == Pack(stored);
  }

  lemma RingNext(fds: seq<int>, sizes: seq<int>, e: nat, stored: seq<Stored>, record: Stored)
    requires RingHolds(fds, sizes, e, stored) && |stored| < FDS
    ensures e < FDS
    ensures RingHolds(fds[e := record.fd], sizes[e := record.size], (e + 1) % FDS, stored + [record])
  {
  }

  datatype Reply = Image(fd: int, size: int) | NotPresent

  /** What the system calls and the image library report during a miss. */
  datatype Outcome = Outcome(fd: int, readOk: bool, jpegOk: bool, size: int)

  /** A miss goes on to adapt the image: only a .jpg that can be read under neither
      spelling does not. */
  predicate Readable(ext: string, o: Outcome) {
    o.readOk || ext != ".jpg" || o.jpegOk
  }

  class Cache {
    const fileMap: array<char>
    var seekCache: nat
    const fd: array<int>
    const fileSize: array<int>
    var E: nat
    ghost var stored: seq<Stored>

    ghost predicate Valid()
      reads this, fileMap, fd, fileSize
    {
      && fd != fileSize
      && MapHolds(fileMap[..], seekCache, stored)
      && RingHolds(fd[..], fileSize[..], E, stored)
    }

    /** Room for one more path and its pair before the map or the ring wraps. */
    ghost predicate RoomFor(path: string)
      reads this
    {
      |stored| < FDS && |Pack(stored)| + |path| + 1 <= SIZE_FILE_LISTCACHE
    }

    constructor ()
      ensures Valid() && stored == []
      ensures fresh(fileMap) && fresh(fd) && fresh(fileSize)
    {
      fileMap := new char[SIZE_FILE_LISTCACHE](_ => NUL);
      fd := new int[FDS](_ => 0);
      fileSize := new int[FDS](_ => 0);
      seekCache, E := 0, 0;
      stored := [];
    }

    method FindFileInCache(cachePath: string) returns (cached: bool, idx: int)
      requires Valid()
      ensures cached <==> exists j | 0 <= j < |stored| :: Contains(stored[j].path, cachePath)
      ensures cached ==> idx == FirstMatch(stored, cachePath, 0)
      ensures !cached ==> idx == -1
    {
      EmptyIffFirstByteZero(fileMap[..], stored);
      if fileMap[0] != NUL {
        var len, i := 0, 0;
        while len < SIZE_FILE_LISTCACHE
          invariant i >= 0 && len == Offset(stored, i)
          invariant FirstMatch(stored, cachePath, 0) == MatchFrom(stored, cachePath, i)
          invariant i > 0 ==> cachePath != ""
          invariant i < |stored| ==> len < SIZE_FILE_LISTCACHE
          decreases SIZE_FILE_LISTCACHE - len
        {
          ghost var bytes := fileMap[..];
          SearchStep(bytes, stored, cachePath, i);
          var buf := StrAt(fileMap[..], len);
          if Contains(buf, cachePath) {
            return true, i;
          }
          len := len + |buf| + 1;
          i := i + 1;
        }
      }
      return false, -1;
    }

    /** get_image_to_send: a hit returns the pair at the found index; a miss adapts
        the image and records it, unless a .jpg can be read under neither spelling. */
    method GetImageToSend(cachePath: string, ext: string, cached: bool, idx: int, o: Outcome)
      returns (reply: Reply)
      requires Valid()
      requires cached ==> 0 <= idx < |stored|
      requires !cached && Readable(ext, o) ==> Storable(cachePath) && RoomFor(cachePath)
      modifies this, fileMap, fd, fileSize
      ensures Valid()
      ensures cached ==> stored == old(stored) && reply == Image(stored[idx].fd, stored[idx].size)
      ensures !cached && !Readable(ext, o) ==> reply == NotPresent && stored == old(stored)
      ensures !cached && Readable(ext, o)
          ==> reply == Image(o.fd, o.size) && stored == old(stored) + [Stored(cachePath, o.fd, o.size)]
    {
      if cached {
        return Image(fd[idx], fileSize[idx]);
      }
      if !o.readOk && ext == ".jpg" {
        if !o.jpegOk {
          return NotPresent;
        }
      }
      Record(cachePath, o.fd, o.size);
      reply := Image(o.fd, o.size);
    }

    /** HandleImage.c:121-123 */
    method StorePath(cachePath: string)
      requires fileMap.Length == SIZE_FILE_LISTCACHE && seekCache + |cachePath| < SIZE_FILE_LISTCACHE
      modifies this`seekCache, fileMap
      ensures fileMap[..] == old(Written(fileMap[..], seekCache, cachePath))
      ensures seekCache == (old(seekCache) + |cachePath| + 1) % SIZE_FILE_LISTCACHE
    {
      Memcpy(fileMap, seekCache, cachePath);
      fileMap[seekCache + |cachePath|] := NUL;
      seekCache := (seekCache + |cachePath| + 1) % SIZE_FILE_LISTCACHE;
    }

    /** HandleImage.c:124-126 */
    method StorePair(imageFd: int, size: int)
      requires fd != fileSize && fd.Length == fileSize.Length == FDS && E < FDS
      modifies this`E, fd, fileSize
      ensures fd[..] == old(fd[..])[old(E) := imageFd] && fileSize[..] == old(fileSize[..])[old(E) := size]
      ensures E == (old(E) + 1) % FDS
    {
      fd[E] := imageFd;
      fileSize[E] := size;
      E := (E + 1) % FDS;
    }

    /** HandleImage.c:120-127: the path into the map, the pair into the ring. */
    method Record(cachePath: string, imageFd: int, size: int)
      requires Valid() && Storable(cachePath) && RoomFor(cachePath)
      modifies this, fileMap, fd, fileSize
      ensures Valid() && stored == old(stored) + [Stored(cachePath, imageFd, size)]
    {
      ghost var record := Stored(cachePath, imageFd, size);
      MapNext(fileMap[..], seekCache, stored, record);
      RingNext(fd[..], fileSize[..], E, stored, record);
      StorePath(cachePath);
      assert MapHolds(fileMap[..], seekCache, stored + [record]);
      assert RingHolds(fd[..], fileSize[..], E, stored);
      StorePair(imageFd, size);
      assert RingHolds(fd[..], fileSize[..], E, stored + [record]);
      stored := stored + [record];
    }
  }
}
