/** The paths of cached images (HttpServer.c:183-186) and when one occurs inside
    another (Utils.c:306). */
module ImagePaths {
  import opened CStrings
  import opened Decimal
  import opened CacheKey

  const IMAGE_CACHE := "../cache/"

  datatype Image = Image(name: string, q: nat, width: int, height: int, colors: int, ext: string)

  /** A dot-free name, a quality in [0.1, 1], and an extension whose only dot comes first. */
  predicate WellFormed(im: Image) {
    && Free(im.name, '.')
    && TENTH <= im.q <= ONE
    && im.ext != "" && im.ext[0] == '.' && Free(im.ext[1..], '.')
  }

  function KeyOf(im: Image): string
    requires im.q >= TENTH
  {
    Key(im.name, im.q, im.width, im.height, im.colors)
  }

  function Path(im: Image): string
    requires im.q >= TENTH
  {
    IMAGE_CACHE + KeyOf(im) + im.ext
  }

  lemma HeadDots(k: nat)
    requires k < 9
    ensures |IMAGE_CACHE| == 9 && (IMAGE_CACHE[k] == '.' <==> k < 2)
  {
  }

  lemma LetterOf(a: string, b: string, c: string, k: nat)
    requires k < |a + b + c|
    ensures (a + b + c)[k] == if k < |a| then a[k] else if k < |a| + |b| then b[k - |a|] else c[k - |a| - |b|]
  {
  }

  /** The dots of a path: the two of the directory, the one of the quality, and the
      one of the extension. */
  lemma DotsOf(im: Image, k: nat)
    requires WellFormed(im) && k < |Path(im)|
    ensures |Path(im)| == 9 + |KeyOf(im)| + |im.ext| && |KeyOf(im)| >= |im.name| + 10
    ensures Path(im)[k] == '.'
       <==> k == 0 || k == 1 || k == 9 + |im.name| + 1 || k == 9 + |KeyOf(im)|
  {
    var key := KeyOf(im);
    KeyDot(im.name, im.q, im.width, im.height, im.colors);
    HeadDots(0);
    LetterOf(IMAGE_CACHE, key, im.ext, k);
    if k < 9 {
      HeadDots(k);
    } else if k > 9 + |key| {
      assert im.ext[1..][k - 9 - |key| - 1] != '.';
    }
  }

  /** A path can only occur at the start of another: only there do two dots touch. */
  lemma OccursOnlyAtStart(stored: Image, wanted: Image, k: nat)
    requires WellFormed(stored) && WellFormed(wanted)
    requires OccursAt(Path(stored), Path(wanted), k)
    ensures k == 0
  {
    var s, w := Path(stored), Path(wanted);
    OccursLetter(s, w, k, 0);
    OccursLetter(s, w, k, 1);
    DotsOf(wanted, 0);
    DotsOf(wanted, 1);
    DotsOf(stored, k);
    DotsOf(stored, k + 1);
  }

  lemma PartsOfPrefix(h: string, a: string, x: string, b: string, y: string)
    requires |a| == |b|
    ensures OccursAt(h + a + x, h + b + y, 0) <==> a == b && y <= x
  {
    var s, w := h + a + x, h + b + y;
    if OccursAt(s, w, 0) {
      assert s[..|w|] == w;
      assert a == s[|h|..|h| + |a|] == w[|h|..|h| + |b|] == b;
      assert y == w[|h| + |b|..] == s[|h| + |a|..|w|] == x[..|y|];
    }
    if a == b && y <= x {
      assert s[..|w|] == w;
    }
  }

  /** A path occurs in a stored path exactly when the keys are equal and its
      extension begins the stored one. */
  lemma PathLookupIff(stored: Image, wanted: Image)
    requires WellFormed(stored) && WellFormed(wanted)
    ensures Contains(Path(stored), Path(wanted))
       <==> KeyOf(stored) == KeyOf(wanted) && wanted.ext <= stored.ext
  {
    var s, w := Path(stored), Path(wanted);
    if Contains(s, w) {
      var k :| 0 <= k <= |s| && OccursAt(s, w, k);
      OccursOnlyAtStart(stored, wanted, k);
      DotsAlign(stored, wanted);
    }
    if |KeyOf(stored)| == |KeyOf(wanted)| {
      PartsOfPrefix(IMAGE_CACHE, KeyOf(stored), stored.ext, KeyOf(wanted), wanted.ext);
    }
  }

  /** When one path begins another, the dots of quality and extension fall together. */
  lemma DotsAlign(stored: Image, wanted: Image)
    requires WellFormed(stored) && WellFormed(wanted) && OccursAt(Path(stored), Path(wanted), 0)
    ensures |KeyOf(stored)| == |KeyOf(wanted)|
  {
    var s, w := Path(stored), Path(wanted);
    DotsOf(wanted, 0);
    DotsOf(stored, 0);
    var q, e := 9 + |wanted.name| + 1, 9 + |KeyOf(wanted)|;
    OccursLetter(s, w, 0, q);
    OccursLetter(s, w, 0, e);
    DotsOf(wanted, q);
    DotsOf(wanted, e);
    DotsOf(stored, q);
    DotsOf(stored, e);
  }

  /** With extensions of one length, four bytes in the server, the lookup is exact. */
  lemma PathLookupExact(stored: Image, wanted: Image)
    requires WellFormed(stored) && WellFormed(wanted) && |stored.ext| == |wanted.ext|
    ensures Contains(Path(stored), Path(wanted)) <==> Path(stored) == Path(wanted)
    ensures Contains(Path(stored), Path(wanted))
       <==> stored.name == wanted.name && stored.q == wanted.q && stored.ext == wanted.ext
            && Tail(stored.width, stored.height, stored.colors) == Tail(wanted.width, wanted.height, wanted.colors)
  {
    PathLookupIff(stored, wanted);
    KeyDeterminesParts(stored.name, stored.q, stored.width, stored.height, stored.colors,
                       wanted.name, wanted.q, wanted.width, wanted.height, wanted.colors);
    if Contains(Path(stored), Path(wanted)) {
      assert stored.ext == wanted.ext;
    }
    if Path(stored) == Path(wanted) {
      assert OccursAt(Path(stored), Path(wanted), 0);
    }
  }

  /** Two images with one path are the same image exactly when the digit counts of
      their widths and heights agree. */
  lemma SamePathSameImageExactly(a: Image, b: Image)
    requires WellFormed(a) && WellFormed(b) && |a.ext| == |b.ext| && Path(a) == Path(b)
    requires a.width >= 0 && a.height >= 0 && a.colors >= 0 && b.width >= 0 && b.height >= 0 && b.colors >= 0
    ensures a == b <==> |Printed(a.width)| == |Printed(b.width)| && |Printed(a.height)| == |Printed(b.height)|
  {
    PathLookupExact(a, b);
    TailDeterminesDimensions(a.width, a.height, a.colors, b.width, b.height, b.colors);
  }

  /** With a shorter extension it is not: a stored .jpg answers a request for .jp. */
  lemma ShorterExtensionIsConfused(name: string, q: nat, w: int, h: int, c: int)
    requires Free(name, '.') && TENTH <= q <= ONE
    ensures var stored, wanted := Image(name, q, w, h, c, ".jpg"), Image(name, q, w, h, c, ".jp");
            Contains(Path(stored), Path(wanted)) && Path(stored) != Path(wanted)
  {
    var stored, wanted := Image(name, q, w, h, c, ".jpg"), Image(name, q, w, h, c, ".jp");
    PathLookupIff(stored, wanted);
    assert |Path(stored)| != |Path(wanted)|;
  }
}
