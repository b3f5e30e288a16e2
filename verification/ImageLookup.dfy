/** The search for an image path among the stored ones (Utils.c:295-321) over the
    paths that the server builds (HttpServer.c:183-186). */
module ImageLookup {
  import opened CStrings
  import opened ImagePaths
  import opened ImageCache

  ghost predicate IsImagePath(path: string) {
    exists im :: WellFormed(im) && |im.ext| == 4 && path == Path(im)
  }

  /** The first record of exactly this path, from `i` on. */
  function FirstWith(stored: seq<Stored>, path: string, i: nat): (k: nat)
    requires i <= |stored|
    ensures i <= k <= |stored|
    ensures forall j | i <= j < k :: stored[j].path != path
    ensures k < |stored| ==> stored[k].path == path
    decreases |stored| - i
  {
    if i == |stored| || stored[i].path == path then i else FirstWith(stored, path, i + 1)
  }

  /** The substring search finds exactly the first record of the wanted path. */
  lemma SearchIsExact(stored: seq<Stored>, wanted: Image)
    requires WellFormed(wanted) && |wanted.ext| == 4
    requires forall j | 0 <= j < |stored| :: IsImagePath(stored[j].path)
    ensures FirstMatch(stored, Path(wanted), 0) == FirstWith(stored, Path(wanted), 0)
  {
    forall j | 0 <= j < |stored|
      ensures Contains(stored[j].path, Path(wanted)) <==> stored[j].path == Path(wanted)
    {
      var im :| WellFormed(im) && |im.ext| == 4 && stored[j].path == Path(im);
      PathLookupExact(im, wanted);
    }
  }

  /** A record keeps being the first of its path however many are stored after it. */
  lemma {:induction false} FirstWithStable(stored: seq<Stored>, more: seq<Stored>, path: string, i: nat)
    requires i <= |stored| && FirstWith(stored, path, i) < |stored|
    ensures FirstWith(stored + more, path, i) == FirstWith(stored, path, i)
    decreases |stored| - i
  {
    if stored[i].path == path {
    } else {
      FirstWithStable(stored, more, path, i + 1);
    }
  }
}
