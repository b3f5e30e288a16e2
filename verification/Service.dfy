/** One request from its text to its image (HttpServer.c:167-225): parsing,
    dimensions, cache name, cache search, and the answer. */
module Service {
  import opened CStrings
  import opened CacheKey
  import opened ImagePaths
  import opened ImageLookup
  import QueryText
  import QueryCache
  import ImageCache
  import RequestLine

  /** What is left of a message after parsing; the quality factor comes from the
      Accept line, which is not parsed here. */
  datatype Request = Request(name: string, ext: string, ua: string, q: nat)

  /** Requests whose cached path determines them up to digit grouping. */
  predicate Proper(rq: Request) {
    && Free(rq.name, '.')
    && |rq.ext| == 4 && rq.ext[0] == '.' && Free(rq.ext[1..], '.')
    && TENTH <= rq.q <= ONE
    && QueryCache.Plain(rq.ua)
  }

  function ImageFor(rq: Request, dims: QueryCache.Dims): Image {
    Image(rq.name, rq.q, dims.width, dims.height, dims.colors, rq.ext)
  }

  /** The image that the request stands for when the database is asked directly. */
  function Wanted(table: QueryCache.Table, rq: Request): Image {
    ImageFor(rq, QueryCache.Lookup(table, rq.ua))
  }

  /** Both caches. */
  datatype Site = Site(ring: QueryCache.Ring, stored: seq<ImageCache.Stored>)

  const EMPTY_SITE := Site(QueryCache.EMPTY_RING, [])

  /** One request on both caches, up to the wrap of the byte map or of the ring. */
  function Serve(site: Site, table: QueryCache.Table, rq: Request, o: ImageCache.Outcome): (r: (Site, ImageCache.Reply))
    requires |site.ring.entries| == QueryCache.SLOTS && rq.q >= TENTH
    ensures |r.0.ring.entries| == QueryCache.SLOTS
  {
    var (ring, dims) := QueryCache.Retrieve(site.ring, table, rq.ua);
    var path := Path(ImageFor(rq, dims));
    var k := ImageCache.FirstMatch(site.stored, path, 0);
    if k < |site.stored| then
      (Site(ring, site.stored), ImageCache.Image(site.stored[k].fd, site.stored[k].size))
    else if !ImageCache.Readable(rq.ext, o) then
      (Site(ring, site.stored), ImageCache.NotPresent)
    else
      (Site(ring, site.stored + [ImageCache.Stored(path, o.fd, o.size)]), ImageCache.Image(o.fd, o.size))
  }

  /** `inserted` are the user agents the query cache has seen; the image cache has
      not wrapped. */
  ghost predicate SiteInv(site: Site, table: QueryCache.Table, inserted: seq<string>) {
    && QueryCache.HoldsLast(site.ring, table, inserted)
    && QueryCache.AllPlain(inserted) && QueryCache.Spaced(inserted)
    && ImageCache.Unwrapped(site.stored)
    && forall j | 0 <= j < |site.stored| :: IsImagePath(site.stored[j].path)
  }

  lemma InvInitially(table: QueryCache.Table)
    ensures SiteInv(EMPTY_SITE, table, [])
  {
  }

  /** What a request for a path gets, and what is stored afterwards. */
  function Expected(stored: seq<ImageCache.Stored>, path: string, readable: bool, o: ImageCache.Outcome)
    : (seq<ImageCache.Stored>, ImageCache.Reply)
  {
    var k := FirstWith(stored, path, 0);
    if k < |stored| then (stored, ImageCache.Image(stored[k].fd, stored[k].size))
    else if readable then (stored + [ImageCache.Stored(path, o.fd, o.size)], ImageCache.Image(o.fd, o.size))
    else (stored, ImageCache.NotPresent)
  }

  /** The image side of one request, given the dimensions it got. */
  lemma ImageStep(site: Site, table: QueryCache.Table, rq: Request, o: ImageCache.Outcome)
    requires |site.ring.entries| == QueryCache.SLOTS && Proper(rq)
    requires QueryCache.Retrieve(site.ring, table, rq.ua).1 == QueryCache.Lookup(table, rq.ua)
    requires var path := Path(Wanted(table, rq));
             ImageCache.FirstMatch(site.stored, path, 0) == FirstWith(site.stored, path, 0)
    ensures var (site', reply) := Serve(site, table, rq, o);
            && (site'.stored, reply)
               == Expected(site.stored, Path(Wanted(table, rq)), ImageCache.Readable(rq.ext, o), o)
            && site'.ring == QueryCache.Retrieve(site.ring, table, rq.ua).0
  {
  }

  lemma PathsStay(stored: seq<ImageCache.Stored>, path: string, readable: bool, o: ImageCache.Outcome)
    requires IsImagePath(path) && forall j | 0 <= j < |stored| :: IsImagePath(stored[j].path)
    ensures var stored' := Expected(stored, path, readable, o).0;
            forall j | 0 <= j < |stored'| :: IsImagePath(stored'[j].path)
  {
  }

  /** One request, whatever the caches hold: the pair recorded first for the path of
      the wanted image if it is stored, and otherwise what the miss reports, as long
      as what it records does not wrap the map or the ring. */
  lemma ServeExact(site: Site, table: QueryCache.Table, inserted: seq<string>, rq: Request, o: ImageCache.Outcome)
    returns (inserted': seq<string>)
    requires SiteInv(site, table, inserted) && Proper(rq)
    requires ImageCache.Unwrapped(Serve(site, table, rq, o).0.stored)
    ensures var (site', reply) := Serve(site, table, rq, o);
            && SiteInv(site', table, inserted')
            && (site'.stored, reply)
               == Expected(site.stored, Path(Wanted(table, rq)), ImageCache.Readable(rq.ext, o), o)
  {
    QueryCache.RetrieveRefinesLookup(site.ring, table, inserted, rq.ua);
    var wanted := Wanted(table, rq);
    SearchIsExact(site.stored, wanted);
    ImageStep(site, table, rq, o);
    assert IsImagePath(Path(wanted));
    PathsStay(site.stored, Path(wanted), ImageCache.Readable(rq.ext, o), o);
    inserted' := if QueryCache.Recent(inserted, rq.ua) then inserted else inserted + [rq.ua];
  }

  // Sequences of requests.

  datatype Event = Event(rq: Request, o: ImageCache.Outcome)

  predicate AllProper(events: seq<Event>) {
    forall e | e in events :: Proper(e.rq)
  }

  function SiteAfter(site: Site, table: QueryCache.Table, events: seq<Event>): (site': Site)
    requires |site.ring.entries| == QueryCache.SLOTS && AllProper(events)
    ensures |site'.ring.entries| == QueryCache.SLOTS
    decreases |events|
  {
    if events == [] then site
    else SiteAfter(Serve(site, table, events[0].rq, events[0].o).0, table, events[1..])
  }

  lemma {:induction false} StoredGrows(site: Site, table: QueryCache.Table, events: seq<Event>)
    requires |site.ring.entries| == QueryCache.SLOTS && AllProper(events)
    ensures site.stored <= SiteAfter(site, table, events).stored
    decreases |events|
  {
    if events == [] {
    } else {
      assert events[0] in events;
      StoredGrows(Serve(site, table, events[0].rq, events[0].o).0, table, events[1..]);
    }
  }

  lemma {:induction false} InvAlways(site: Site, table: QueryCache.Table, inserted: seq<string>, events: seq<Event>)
    returns (inserted': seq<string>)
    requires SiteInv(site, table, inserted) && AllProper(events)
    requires ImageCache.Unwrapped(SiteAfter(site, table, events).stored)
    ensures SiteInv(SiteAfter(site, table, events), table, inserted')
    decreases |events|
  {
    if events == [] {
      inserted' := inserted;
    } else {
      assert events[0] in events;
      var site' := Serve(site, table, events[0].rq, events[0].o).0;
      StoredGrows(site', table, events[1..]);
      ImageCache.UnwrappedBefore(site'.stored, SiteAfter(site', table, events[1..]).stored);
      var i1 := ServeExact(site, table, inserted, events[0].rq, events[0].o);
      inserted' := InvAlways(site', table, i1, events[1..]);
    }
  }

  /** A request that got an image finds its path stored from then on, with the pair it got. */
  lemma ExpectedTwice(stored: seq<ImageCache.Stored>, path: string, readable: bool, o: ImageCache.Outcome,
                      stored': seq<ImageCache.Stored>, readable': bool, o': ImageCache.Outcome)
    requires Expected(stored, path, readable, o).0 <= stored'
    requires Expected(stored, path, readable, o).1.Image?
    ensures Expected(stored', path, readable', o') == (stored', Expected(stored, path, readable, o).1)
  {
    var k := FirstWith(stored, path, 0);
    assert stored'[k].path == path;
    assert FirstWith(stored', path, 0) == k;
  }

  /** Once a request got an image, every later request for an image with the same
      path gets the same descriptor and size, whatever was served before and in
      between, as long as neither the map nor the ring has wrapped by then. */
  lemma SameImageFromThenOn(table: QueryCache.Table, before: seq<Event>, rq: Request, o: ImageCache.Outcome,
                            between: seq<Event>, rq': Request, o': ImageCache.Outcome)
    requires AllProper(before) && Proper(rq) && AllProper(between) && Proper(rq')
    requires Path(Wanted(table, rq)) == Path(Wanted(table, rq'))
    requires var site1 := Serve(SiteAfter(EMPTY_SITE, table, before), table, rq, o).0;
             ImageCache.Unwrapped(SiteAfter(site1, table, between).stored)
    ensures var (site1, reply) := Serve(SiteAfter(EMPTY_SITE, table, before), table, rq, o);
            reply.Image? ==> Serve(SiteAfter(site1, table, between), table, rq', o').1 == reply
  {
    var site := SiteAfter(EMPTY_SITE, table, before);
    var (site1, reply) := Serve(site, table, rq, o);
    var site2 := SiteAfter(site1, table, between);
    StoredGrows(site1, table, between);
    ImageCache.UnwrappedBefore(site1.stored, site2.stored);
    ImageCache.UnwrappedBefore(site.stored, site1.stored);
    InvInitially(table);
    var i0 := InvAlways(EMPTY_SITE, table, [], before);
    var i1 := ServeExact(site, table, i0, rq, o);
    var i2 := InvAlways(site1, table, i1, between);
    if reply.Image? {
      ExpectedTwice(site.stored, Path(Wanted(table, rq)), ImageCache.Readable(rq.ext, o), o,
                    site2.stored, ImageCache.Readable(rq'.ext, o'), o');
      AnswerOf(site2, table, i2, rq', o');
    }
  }

  /** The answer of one request, whether or not there is room to record a miss. */
  lemma AnswerOf(site: Site, table: QueryCache.Table, inserted: seq<string>, rq: Request, o: ImageCache.Outcome)
    requires SiteInv(site, table, inserted) && Proper(rq)
    ensures Serve(site, table, rq, o).1
         == Expected(site.stored, Path(Wanted(table, rq)), ImageCache.Readable(rq.ext, o), o).1
  {
    QueryCache.RetrieveRefinesLookup(site.ring, table, inserted, rq.ua);
    SearchIsExact(site.stored, Wanted(table, rq));
    ImageStep(site, table, rq, o);
  }

  /** "Not present" is the answer exactly when no record of the wanted path is stored
      and a .jpg can be read under neither spelling. An image of any other extension
      that cannot be read is recorded and sent all the same. */
  lemma NotPresentExactly(site: Site, table: QueryCache.Table, inserted: seq<string>, rq: Request,
                          o: ImageCache.Outcome)
    requires SiteInv(site, table, inserted) && Proper(rq)
    ensures Serve(site, table, rq, o).1 == ImageCache.NotPresent
       <==> && (forall j | 0 <= j < |site.stored| :: site.stored[j].path != Path(Wanted(table, rq)))
            && rq.ext == ".jpg" && !o.readOk && !o.jpegOk
  {
    AnswerOf(site, table, inserted, rq, o);
    var path := Path(Wanted(table, rq));
    var k := FirstWith(site.stored, path, 0);
    if k < |site.stored| {
      assert site.stored[k].path == path;
    }
  }

  /** The path under which an image is cached for a device says what was asked for and
      what the database knows of the device: directory, name, quality, width, height,
      colours, extension, in this order. */
  lemma PathReadsBack(table: QueryCache.Table, rq: Request, w: nat, h: nat, c: nat, i: nat, j: nat)
    requires Proper(rq) && QueryCache.Describes(table, rq.ua, w, h, c) && HasDigits(w, i) && HasDigits(h, j)
    ensures var path := Path(Wanted(table, rq));
            && 13 <= |path| && path[..9] == "../cache/" && path[|path| - 4..] == rq.ext
            && var key := path[9..|path| - 4];
               var dot := IndexOf(key, '.');
               && 0 < dot && dot + 9 + i + j <= |key|
               && key[..dot - 1] == rq.name
               && Reads(key[dot - 1..dot] + key[dot + 1..dot + 9], rq.q)
               && Reads(key[dot + 9..][..i], w)
               && Reads(key[dot + 9..][i..i + j], h)
               && Reads(key[dot + 9..][i + j..], c)
  {
    QueryCache.LookupReadsRow(table, rq.ua, w, h, c);
    KeyReadsBack(rq.name, rq.q, w, h, c, i, j);
    var key := Key(rq.name, rq.q, w, h, c);
    ThreeParts("../cache/", key, rq.ext);
    assert Path(Wanted(table, rq)) == "../cache/" + key + rq.ext;
  }

  /** The other side of the digit grouping: a 1 by 23 screen is answered with the
      image that was adapted for a 12 by 3 screen. */
  lemma WrongSizeIsServed(table: QueryCache.Table, rq: Request, ua: string, c: int, o: ImageCache.Outcome,
                          o': ImageCache.Outcome)
    requires Proper(rq) && Proper(rq.(ua := ua)) && ImageCache.Readable(rq.ext, o)
    requires QueryCache.Lookup(table, rq.ua) == QueryCache.Dims(12, 3, c)
    requires QueryCache.Lookup(table, ua) == QueryCache.Dims(1, 23, c)
    requires ImageCache.Storable(Path(Wanted(table, rq)))
    ensures var site := Serve(EMPTY_SITE, table, rq, o).0;
            && Wanted(table, rq) != Wanted(table, rq.(ua := ua))
            && Serve(site, table, rq.(ua := ua), o').1 == ImageCache.Image(o.fd, o.size)
  {
    DifferentDimensionsShareKey(rq.name, rq.q, c);
    InvInitially(table);
    QueryCache.RetrieveRefinesLookup(QueryCache.EMPTY_RING, table, [], rq.ua);
    ImageStep(EMPTY_SITE, table, rq, o);
    FirstRecordFits(Path(Wanted(table, rq)), o);
    SameImageFromThenOn(table, [], rq, o, [], rq.(ua := ua), o');
  }

  lemma FirstRecordFits(path: string, o: ImageCache.Outcome)
    requires ImageCache.Storable(path)
    ensures ImageCache.Unwrapped([ImageCache.Stored(path, o.fd, o.size)])
  {
    var stored := [ImageCache.Stored(path, o.fd, o.size)];
    assert stored[..0] == [] && ImageCache.Pack([]) == "";
  }

  // The server's side of one message.

  datatype Answer = Served(reply: ImageCache.Reply) | Icon | BadRequest

  /** A printed request is read back as the request it was printed from. */
  lemma PrintedRequestIsRead(verb: string, rq: Request, rest: string)
    requires Proper(rq) && Free(rq.name, ' ') && Free(rq.ext, ' ') && |rq.name| < 128 && Free(verb, '/')
    requires var line := RequestLine.PrintLine(verb, rq.name, rq.ext);
             !Contains(line, RequestLine.AGENT) && Free(line, '\r') && |line| < RequestLine.HTTP_MESSAGE_SIZE
    requires Free(rq.ua, '\r')
    ensures var message := RequestLine.PrintRequest(verb, rq.name, rq.ext, rq.ua, rest);
            && RequestLine.HasCommandLine(message) && RequestLine.HasUserAgent(message)
            && RequestLine.ParsedName(RequestLine.CommandLine(message)) == RequestLine.ImageRequested(rq.name, rq.ext)
            && RequestLine.UserAgent(message) == rq.ua
  {
    QueryText.QueryShape(rq.ua);
    RequestLine.RequestRoundTrip(verb, rq.name, rq.ext, rq.ua, rest);
    RequestLine.LineRoundTrip(verb, rq.name, rq.ext);
  }

  class ImageServer {
    const queries: QueryCache.Cache
    const images: ImageCache.Cache

    ghost predicate Valid()
      reads queries, images, images.fileMap, images.fd, images.fileSize
    {
      queries.Valid() && images.Valid()
    }

    ghost function Model(): Site
      reads queries, queries.cache, images
    {
      Site(queries.Model(), images.stored)
    }

    constructor ()
      ensures Valid() && Model() == EMPTY_SITE
      ensures fresh(queries) && fresh(queries.cache) && fresh(images)
      ensures fresh(images.fileMap) && fresh(images.fd) && fresh(images.fileSize)
    {
      queries := new QueryCache.Cache();
      images := new ImageCache.Cache();
    }

    /** If the request will record an image, its path fits the search buffer, and
        the map and the ring have room for it. */
    ghost predicate Fits(rq: Request, table: QueryCache.Table, o: ImageCache.Outcome)
      requires queries.Valid() && rq.q >= TENTH
      reads queries, queries.cache, images
    {
      var path := Path(ImageFor(rq, QueryCache.Retrieve(queries.Model(), table, rq.ua).1));
      ImageCache.FirstMatch(images.stored, path, 0) == |images.stored| && ImageCache.Readable(rq.ext, o)
      ==> ImageCache.Storable(path) && images.RoomFor(path)
    }

    /** HttpServer.c:170-225 for a parsed request. */
    method ServeImage(rq: Request, table: QueryCache.Table, o: ImageCache.Outcome) returns (reply: ImageCache.Reply)
      requires Valid() && rq.q >= TENTH && QueryText.Askable(rq.ua) && Fits(rq, table, o)
      modifies queries, queries.cache, images, images.fileMap, images.fd, images.fileSize
      ensures Valid()
      ensures (Model(), reply) == old(Serve(Model(), table, rq, o))
    {
      var dims := queries.RetrieveDim(rq.ua, table);
      var cacheName := BuildImageNameCache(rq.name, rq.q, dims.width, dims.height, dims.colors);
      var cachePath := IMAGE_CACHE + cacheName[..cacheName.Length - 1] + rq.ext;
      assert cachePath == Path(ImageFor(rq, dims));
      var cached, idx := images.FindFileInCache(cachePath);
      reply := images.GetImageToSend(cachePath, rq.ext, cached, idx, o);
    }

    /** HttpServer.c:167-247 for one received message. */
    method HandleRequest(message: string, q: nat, table: QueryCache.Table, o: ImageCache.Outcome)
      returns (answer: Answer)
      requires Valid() && q >= TENTH
      requires RequestLine.HasCommandLine(message) && Free(RequestLine.CommandLine(message), NUL)
      requires match RequestLine.ParsedName(RequestLine.CommandLine(message))
               case ImageRequested(name, ext) =>
                 && RequestLine.HasUserAgent(message)
                 && QueryText.Askable(RequestLine.UserAgent(message))
                 && Fits(Request(name, ext, RequestLine.UserAgent(message), q), table, o)
               case Overrun => false
               case _ => true
      modifies queries, queries.cache, images, images.fileMap, images.fd, images.fileSize
      ensures Valid()
      ensures match RequestLine.ParsedName(RequestLine.CommandLine(message))
              case ImageRequested(name, ext) =>
                var rq := Request(name, ext, RequestLine.UserAgent(message), q);
                answer.Served? && (Model(), answer.reply) == old(Serve(Model(), table, rq, o))
              case MessageNotCorrect => answer == BadRequest && Model() == old(Model())
              case _ => answer == Icon && Model() == old(Model())
      ensures var line := RequestLine.CommandLine(message);
              var slash := IndexOf(line, '/');
              slash < |line| && RequestLine.CharAt(line, slash + 1) != '?' ==>
                && Model() == old(Model())
                && (answer == Icon
                    <==> RequestLine.CharAt(line, slash + 1) == ' ' || Contains(line, "favicon"))
                && (answer == BadRequest
                    <==> RequestLine.CharAt(line, slash + 1) != ' ' && !Contains(line, "favicon"))
    {
      var firstLine := RequestLine.GetCommandLine(message);
      var parsed := RequestLine.ParseName(firstLine);
      if parsed.IconRequested? || parsed.EmptyPath? {
        return Icon;
      } else if parsed.MessageNotCorrect? {
        return BadRequest;
      }
      var userAgent := RequestLine.GetUserAgent(message);
      var reply := ServeImage(Request(parsed.name, parsed.ext, userAgent, q), table, o);
      answer := Served(reply);
    }
  }
}
