/**
 `/@handle` and `/@handle/slug`: canonical spelling, moved handles and the way out to an app. A visitor follows
 the Hub's own 301 answers (section 15.4.2 of RFC 9110) until something else comes back.
 */
module Redirects {
  import opened Wrappers
  import opened Names
  import opened Roster
  import opened Publishing
  import HandleRaces
  import HandleRuns
  import KeptNames

  /** The four routes; the segments are as the router hands them over, after decoding, so any string. */
  datatype Request =
    | Profile(at: string)
    | ProfileSlash(at: string)
    | Page(at: string, slug: string)
    | PageSlash(at: string, slug: string)

  datatype Answer =
    | Ok200(usr: string, slugs: set<string>)
    | NotFound404
    | Moved301(location: string)
    | Found302(url: string)

  // ---- The router ----

  /** The first slash from `i` on, or the end. */
  function SegmentEnd(path: string, i: nat): (e: nat)
    requires i <= |path|
    ensures i <= e <= |path| && (forall k :: i <= k < e ==> path[k] != '/') && (e < |path| ==> path[e] == '/')
    decreases |path| - i
  {
    if i == |path| || path[i] == '/' then i else SegmentEnd(path, i + 1)
  }

  /** `/{at}`, `/{at}/`, `/{at}/{slug}`, `/{at}/{slug}/`; segments are not empty. */
  function Route(path: string): Option<Request> {
    if path == "" || path[0] != '/' then None
    else
      var e := SegmentEnd(path, 1);
      var at := path[1..e];
      if at == "" then None
      else if e == |path| then Some(Profile(at))
      else if e + 1 == |path| then Some(ProfileSlash(at))
      else
        var f := SegmentEnd(path, e + 1);
        var slug := path[e + 1..f];
        if slug == "" then None
        else if f == |path| then Some(Page(at, slug))
        else if f + 1 == |path| then Some(PageSlash(at, slug))
        else None
  }

  predicate NoSlash(s: string) {
    forall i :: 0 <= i < |s| ==> s[i] != '/'
  }

  lemma {:induction false} SegmentEndIs(path: string, i: nat, e: nat)
    requires i <= e <= |path| && (forall k :: i <= k < e ==> path[k] != '/') && (e < |path| ==> path[e] == '/')
    ensures SegmentEnd(path, i) == e
    decreases e - i
  {
    if i < e {
      SegmentEndIs(path, i + 1, e);
    }
  }

  lemma RouteProfile(at: string)
    requires at != "" && NoSlash(at)
    ensures Route("/" + at) == Some(Profile(at))
  {
    var path := "/" + at;
    assert forall k :: 1 <= k < |path| ==> path[k] == at[k - 1];
    SegmentEndIs(path, 1, |path|);
    assert path[1..|path|] == at;
  }

  lemma RoutePage(at: string, slug: string)
    requires at != "" && slug != "" && NoSlash(at) && NoSlash(slug)
    ensures Route("/" + at + "/" + slug) == Some(Page(at, slug))
  {
    var path := "/" + at + "/" + slug;
    var e := 1 + |at|;
    assert forall k :: 1 <= k < e ==> path[k] == at[k - 1];
    assert path[e] == '/';
    assert forall k :: e < k < |path| ==> path[k] == slug[k - e - 1];
    SegmentEndIs(path, 1, e);
    SegmentEndIs(path, e + 1, |path|);
    assert path[1..e] == at && path[e + 1..|path|] == slug;
  }

  predicate Segment(s: string) {
    s != "" && NoSlash(s)
  }

  /** The path of a request whose segments are segments. */
  function PathOf(req: Request): string {
    match req
    case Profile(at) => "/" + at
    case ProfileSlash(at) => "/" + at + "/"
    case Page(at, slug) => "/" + at + "/" + slug
    case PageSlash(at, slug) => "/" + at + "/" + slug + "/"
  }

  predicate Segmented(req: Request) {
    Segment(req.at) && (req.Page? || req.PageSlash? ==> Segment(req.slug))
  }

  lemma RouteOf(req: Request)
    requires Segmented(req)
    ensures Route(PathOf(req)) == Some(req)
  {
    var path := PathOf(req);
    var e := 1 + |req.at|;
    assert forall k :: 1 <= k < e ==> path[k] == req.at[k - 1];
    assert path[1..e] == req.at;
    SegmentEndIs(path, 1, e);
    if req.Page? || req.PageSlash? {
      var f := e + 1 + |req.slug|;
      assert forall k :: e < k < f ==> path[k] == req.slug[k - e - 1];
      assert path[e + 1..f] == req.slug;
      SegmentEndIs(path, e + 1, f);
    }
  }

  lemma SegmentTaken(path: string, i: nat)
    requires i <= |path|
    ensures var e := SegmentEnd(path, i);
      && NoSlash(path[i..e]) && path[i..] == path[i..e] + path[e..]
      && (e < |path| ==> path[e..] == "/" + path[e + 1..])
  {
  }

  lemma Regroup(a: string, b: string, c: string, d: string)
    ensures a + (b + (c + d)) == a + b + c + d
  {
  }

  /** A path of two segments, cut at the ends of both. */
  lemma TwoSegments(path: string, e: nat, f: nat)
    requires 0 < |path| && path[0] == '/' && e == SegmentEnd(path, 1) && e + 1 < |path| && f == SegmentEnd(path, e + 1)
    ensures path == "/" + path[1..e] + "/" + path[e + 1..f] + path[f..]
  {
    SegmentTaken(path, 1);
    SegmentTaken(path, e + 1);
    var head, slug, rest := "/" + path[1..e], path[e + 1..f], path[f..];
    assert path == head + path[e..];
    assert path[e..] == "/" + (slug + rest);
    Regroup(head, "/", slug, rest);
  }

  lemma RouteReads(path: string)
    requires Route(path).Some?
    ensures Segmented(Route(path).value) && path == PathOf(Route(path).value)
  {
    var e := SegmentEnd(path, 1);
    SegmentTaken(path, 1);
    if e == |path| || e + 1 == |path| {
      assert path == "/" + path[1..e] + path[e..];
      assert e < |path| ==> path[e + 1..] == "";
    } else {
      var f := SegmentEnd(path, e + 1);
      SegmentTaken(path, e + 1);
      TwoSegments(path, e, f);
      assert path[f..] == if f == |path| then "" else "/";
    }
  }

  /** The router answers exactly the paths of the four shapes, and hands over exactly their segments. */
  lemma RoutesExactly(path: string, req: Request)
    ensures Route(path) == Some(req) <==> Segmented(req) && path == PathOf(req)
  {
    if Route(path).Some? {
      RouteReads(path);
    }
    if Segmented(req) && path == PathOf(req) {
      RouteOf(req);
    }
  }

  // ---- The handlers ----

  function HandleOf(at: string): Option<string> {
    if at != "" && at[0] == '@' then CanonicalHandle(at[1..]) else None
  }

  function ProfilePath(h: string): string {
    "/" + ("@" + h)
  }

  function PagePath(h: string, slug: string): string {
    "/" + ("@" + h) + "/" + slug
  }

  function CanonicalPath(at: string, slug: Option<string>): Option<string> {
    match HandleOf(at)
    case None => None
    case Some(h) =>
      match slug
      case None => Some(ProfilePath(h))
      case Some(s) => if CanonicalSlug(s).Some? then Some(PagePath(h, CanonicalSlug(s).value)) else None
  }

  function MovedTo(path: Option<string>): Answer {
    if path.Some? then Moved301(path.value) else NotFound404
  }

  function Slugs(site: Site, usr: string): set<string> {
    set key | key in site.pubs && key.0 == usr :: key.1
  }

  /** The handle as spelled is canonical: its row, the new address of a moved one, or nothing. */
  ghost function ProfileOf(site: Site, h: string): Answer {
    match ByHandle(site.roster, h)
    case None =>
      var owner := ResolveMoved(site.roster, h);
      if owner.Some? then Moved301(ProfilePath(owner.value.handle.value)) else NotFound404
    case Some(u) =>
      if PublicHandle(u).None? || u.usrId.None? then NotFound404 else Ok200(u.usrId.value, Slugs(site, u.usrId.value))
  }

  ghost function ProfileAnswer(site: Site, at: string): Answer {
    var path := CanonicalPath(at, None);
    if path.None? then NotFound404
    else if path.value != "/" + at then Moved301(path.value)
    else ProfileOf(site, HandleOf(at).value)
  }

  ghost function PageOf(site: Site, h: string, slug: string): Answer {
    match ByHandle(site.roster, h)
    case None =>
      var owner := ResolveMoved(site.roster, h);
      if owner.Some? then Moved301(PagePath(owner.value.handle.value, slug)) else NotFound404
    case Some(u) =>
      if PublicHandle(u).None? || u.usrId.None? then NotFound404
      else if (u.usrId.value, slug) in site.pubs then Found302(site.pubs[(u.usrId.value, slug)].url)
      else NotFound404
  }

  ghost function PageAnswer(site: Site, at: string, slug: string): Answer {
    var path := CanonicalPath(at, Some(slug));
    if path.None? then NotFound404
    else if path.value != "/" + at + "/" + slug then Moved301(path.value)
    else PageOf(site, HandleOf(at).value, CanonicalSlug(slug).value)
  }

  ghost function Respond(site: Site, req: Request): Answer {
    match req
    case Profile(at) => ProfileAnswer(site, at)
    case ProfileSlash(at) => MovedTo(CanonicalPath(at, None))
    case Page(at, slug) => PageAnswer(site, at, slug)
    case PageSlash(at, slug) => MovedTo(CanonicalPath(at, Some(slug)))
  }

  /** What comes back after following at most `hops` internal redirects; `None` if there was one more. */
  ghost function Follow(site: Site, req: Request, hops: nat): Option<Answer>
    decreases hops
  {
    var a := Respond(site, req);
    if !a.Moved301? then Some(a)
    else if hops == 0 then None
    else
      match Route(a.location)
      case None => Some(NotFound404)
      case Some(next) => Follow(site, next, hops - 1)
  }

  // ---- Canonical addresses ----

  lemma HandleSafe(h: string)
    requires IsHandle(h)
    ensures HandleOf("@" + h) == Some(h) && NoSlash("@" + h)
  {
    assert ("@" + h)[1..] == h;
    HandleFixedPoint(h);
  }

  lemma SlugSafe(s: string)
    requires IsSlug(s)
    ensures CanonicalSlug(s) == Some(s) && NoSlash(s)
  {
    SlugFixedPoint(s);
  }

  lemma CanonicalOf(at: string)
    requires HandleOf(at).Some?
    ensures IsHandle(HandleOf(at).value)
  {
    HandleFixedPoint(at[1..]);
    HandleFixedPoint(HandleOf(at).value);
  }

  lemma CanonicalSlugOf(slug: string)
    requires CanonicalSlug(slug).Some?
    ensures IsSlug(CanonicalSlug(slug).value)
  {
    SlugFixedPoint(slug);
    SlugFixedPoint(CanonicalSlug(slug).value);
  }

  // ---- Where a link ends ----

  /** Who answers to a name: the person or organization that holds it, or the person it is kept for. */
  ghost function Owner(site: Site, h: string): Option<string> {
    match ControlOf(site.roster, h)
    case HeldBy(id) =>
      if id in site.roster.users && !site.roster.users[id].kind.ReservedName? then Some(id) else None
    case KeptFor(usr, _) => Some(usr)
    case Free => None
  }

  ghost function ProfileLanding(site: Site, h: string): Answer {
    match Owner(site, h)
    case None => NotFound404
    case Some(usr) => Ok200(usr, Slugs(site, usr))
  }

  ghost function PageLanding(site: Site, h: string, slug: string): Answer {
    match Owner(site, h)
    case Some(usr) => if (usr, slug) in site.pubs then Found302(site.pubs[(usr, slug)].url) else NotFound404
    case None => NotFound404
  }

  /** Where a request should end, said without redirects. */
  ghost function Destination(site: Site, req: Request): Answer {
    var h := HandleOf(req.at);
    if h.None? then NotFound404
    else if req.Profile? || req.ProfileSlash? then ProfileLanding(site, h.value)
    else if CanonicalSlug(req.slug).None? then NotFound404
    else PageLanding(site, h.value, CanonicalSlug(req.slug).value)
  }

  lemma CurrentNameLands(site: Site, id: string, h: string, slug: string)
    requires Coherent(site.roster) && id in site.roster.users && site.roster.users[id].handle == Some(h)
    ensures ProfileOf(site, h) == ProfileLanding(site, h) && PageOf(site, h, slug) == PageLanding(site, h, slug)
  {
    HolderIs(site.roster, id, h);
  }

  /** The row a kept name resolves to. */
  lemma MovedRow(s: State, h: string)
    requires Coherent(s) && !Held(s, h)
    ensures ResolveMoved(s, h).Some? <==> ControlOf(s, h).KeptFor?
    ensures ResolveMoved(s, h).Some? ==>
      var usr := ControlOf(s, h).usr;
      && usr in s.users && s.users[usr] == ResolveMoved(s, h).value && s.users[usr].handle.Some?
      && IsHandle(s.users[usr].handle.value) && ControlOf(s, s.users[usr].handle.value) == HeldBy(usr)
      && s.users[usr].kind.Person?
  {
    if h in s.reserves && Live(s.reserves[h], s.now) {
      assert ReserveIsLastMove(s, h);
      HolderIs(s, s.reserves[h].usrId, s.reserves[h].newHandle);
    }
  }

  lemma CanonicalProfile(site: Site, h: string)
    requires IsHandle(h)
    ensures Route(ProfilePath(h)) == Some(Profile("@" + h))
    ensures Respond(site, Profile("@" + h)) == ProfileOf(site, h)
  {
    HandleSafe(h);
    RouteProfile("@" + h);
  }

  lemma CanonicalPage(site: Site, h: string, slug: string)
    requires IsHandle(h) && IsSlug(slug)
    ensures Route(PagePath(h, slug)) == Some(Page("@" + h, slug))
    ensures Respond(site, Page("@" + h, slug)) == PageOf(site, h, slug)
  {
    HandleSafe(h);
    SlugSafe(slug);
    RoutePage("@" + h, slug);
  }

  /** From a canonical address one hop is enough. */
  lemma ProfileSettles(site: Site, h: string, hops: nat)
    requires Coherent(site.roster) && IsHandle(h) && hops >= 1
    ensures Follow(site, Profile("@" + h), hops) == Some(ProfileLanding(site, h))
  {
    CanonicalProfile(site, h);
    if Held(site.roster, h) {
      CurrentNameLands(site, Holder(site.roster, h), h, "");
    } else {
      MovedRow(site.roster, h);
      if ResolveMoved(site.roster, h).Some? {
        var usr := ControlOf(site.roster, h).usr;
        var moved := site.roster.users[usr].handle.value;
        CanonicalProfile(site, moved);
        CurrentNameLands(site, usr, moved, "");
        assert Respond(site, Profile("@" + h)) == Moved301(ProfilePath(moved));
        assert Follow(site, Profile("@" + h), hops) == Follow(site, Profile("@" + moved), hops - 1);
      }
    }
  }

  lemma PageSettles(site: Site, h: string, slug: string, hops: nat)
    requires Coherent(site.roster) && IsHandle(h) && IsSlug(slug) && hops >= 1
    ensures Follow(site, Page("@" + h, slug), hops) == Some(PageLanding(site, h, slug))
  {
    CanonicalPage(site, h, slug);
    if Held(site.roster, h) {
      CurrentNameLands(site, Holder(site.roster, h), h, slug);
    } else {
      MovedRow(site.roster, h);
      if ResolveMoved(site.roster, h).Some? {
        var usr := ControlOf(site.roster, h).usr;
        var moved := site.roster.users[usr].handle.value;
        CanonicalPage(site, moved, slug);
        CurrentNameLands(site, usr, moved, slug);
        assert Respond(site, Page("@" + h, slug)) == Moved301(PagePath(moved, slug));
        assert Follow(site, Page("@" + h, slug), hops) == Follow(site, Page("@" + moved, slug), hops - 1);
      }
    }
  }

  lemma {:induction false} TrimStartShortens(s: string)
    ensures |TrimStart(s)| <= |s|
  {
    if s != "" {
      TrimStartShortens(s[1..]);
    }
  }

  lemma {:induction false} TrimEndShortens(s: string)
    ensures |TrimEnd(s)| <= |s|
  {
    if s != "" {
      TrimEndShortens(s[..|s| - 1]);
    }
  }

  lemma TrimShortens(s: string)
    ensures |Trim(s)| <= |s|
  {
    TrimStartShortens(s);
    TrimEndShortens(TrimStart(s));
  }

  /** A page is answered in place only when both segments are spelled canonically, wherever their slashes are. */
  lemma SameSpelling(at: string, slug: string)
    requires HandleOf(at).Some? && CanonicalSlug(slug).Some?
    requires PagePath(HandleOf(at).value, CanonicalSlug(slug).value) == "/" + at + "/" + slug
    ensures at == "@" + HandleOf(at).value && slug == CanonicalSlug(slug).value
  {
    var a, s := "@" + HandleOf(at).value, CanonicalSlug(slug).value;
    TrimShortens(at[1..]);
    TrimShortens(slug);
    var path := "/" + a + "/" + s;
    assert |a| == |at| && |s| == |slug|;
    assert path[1..1 + |a|] == a && path[1..1 + |a|] == at;
    assert path[2 + |a|..] == s && path[2 + |a|..] == slug;
  }

  /**
   Redirects always end. From any request, however spelled, at most two internal redirects lead to the answer
   that the state of the roster and the index prescribes: 200, 404, or a 302 out. No further hop is ever taken.
   */
  lemma RedirectsEnd(site: Site, req: Request, hops: nat)
    requires Coherent(site.roster) && hops >= 2
    ensures Follow(site, req, hops) == Some(Destination(site, req))
  {
    if HandleOf(req.at).Some? {
      CanonicalOf(req.at);
      if req.Profile? || req.ProfileSlash? {
        ProfileEnds(site, req, hops);
      } else if CanonicalSlug(req.slug).Some? {
        PageEnds(site, req, hops);
      }
    }
  }

  /** A first segment that does not start with `@` names nobody, whatever the rest of it says. */
  lemma PlainSegmentIsNotFound(site: Site, req: Request, hops: nat)
    requires req.at == "" || req.at[0] != '@'
    ensures Follow(site, req, hops) == Some(NotFound404)
  {
  }

  lemma ProfileEnds(site: Site, req: Request, hops: nat)
    requires Coherent(site.roster) && hops >= 2 && (req.Profile? || req.ProfileSlash?) && HandleOf(req.at).Some?
    ensures Follow(site, req, hops) == Some(ProfileLanding(site, HandleOf(req.at).value))
  {
    var h := HandleOf(req.at).value;
    CanonicalOf(req.at);
    CanonicalProfile(site, h);
    ProfileSettles(site, h, hops);
    ProfileSettles(site, h, hops - 1);
    if req.Profile? && ProfilePath(h) == "/" + req.at {
      assert ProfilePath(h)[1..] == "@" + h && ("/" + req.at)[1..] == req.at;
    } else {
      assert Respond(site, req) == Moved301(ProfilePath(h));
    }
  }

  lemma PageEnds(site: Site, req: Request, hops: nat)
    requires Coherent(site.roster) && hops >= 2 && (req.Page? || req.PageSlash?)
    requires HandleOf(req.at).Some? && CanonicalSlug(req.slug).Some?
    ensures Follow(site, req, hops) == Some(PageLanding(site, HandleOf(req.at).value, CanonicalSlug(req.slug).value))
  {
    var h, s := HandleOf(req.at).value, CanonicalSlug(req.slug).value;
    CanonicalOf(req.at);
    CanonicalSlugOf(req.slug);
    CanonicalPage(site, h, s);
    PageSettles(site, h, s, hops);
    PageSettles(site, h, s, hops - 1);
    if req.Page? && PagePath(h, s) == "/" + req.at + "/" + req.slug {
      SameSpelling(req.at, req.slug);
    } else {
      assert Respond(site, req) == Moved301(PagePath(h, s));
    }
  }

  /** Two hops are needed, for a kept name that is not spelled canonically. */
  lemma TwoHopsNeeded(site: Site, n: string)
    requires Coherent(site.roster) && n in site.roster.reserves && Live(site.roster.reserves[n], site.roster.now)
    requires !Held(site.roster, n)
    ensures Follow(site, ProfileSlash("@" + n), 1) == None
  {
    assert ReserveIsLastMove(site.roster, n);
    HandleSafe(n);
    CanonicalProfile(site, n);
    MovedRow(site.roster, n);
  }

  // ---- Links survive renames ----

  /** A live reserve on a name nobody holds. */
  ghost predicate KeptUnheld(site: Site, n: string) {
    n in site.roster.reserves && Live(site.roster.reserves[n], site.roster.now) && !Held(site.roster, n)
  }

  /** Every link under the one handle ends where the same link under the other one ends, all four routes. */
  ghost predicate LinksAgree(site: Site, a: string, b: string, slug: string, hops: nat) {
    && Follow(site, Profile("@" + a), hops) == Follow(site, Profile("@" + b), hops)
    && Follow(site, ProfileSlash("@" + a), hops) == Follow(site, ProfileSlash("@" + b), hops)
    && Follow(site, Page("@" + a, slug), hops) == Follow(site, Page("@" + b, slug), hops)
    && Follow(site, PageSlash("@" + a, slug), hops) == Follow(site, PageSlash("@" + b, slug), hops)
  }

  /**
   While the reserve on a name is live, every link under it ends where the same link under the owner's current handle
   ends, with or without a trailing slash and for every string in place of the slug, exactly as long as nobody holds
   the name. With requests one at a time nobody does; a request that raced the rename can.
   */
  lemma LinksSurvive(site: Site, n: string, slug: string, hops: nat)
    requires Coherent(site.roster) && n in site.roster.reserves && Live(site.roster.reserves[n], site.roster.now)
    requires hops >= 2
    ensures LinksAgree(site, n, site.roster.reserves[n].newHandle, slug, hops) <==> !Held(site.roster, n)
    ensures Follow(site, Profile("@" + n), hops) == Follow(site, Profile("@" + site.roster.reserves[n].newHandle), hops)
            <==> !Held(site.roster, n)
  {
    if Held(site.roster, n) {
      HeldLinksPart(site, n, hops);
    } else {
      UnheldLinksAgree(site, n, slug, hops);
    }
  }

  lemma UnheldLinksAgree(site: Site, n: string, slug: string, hops: nat)
    requires Coherent(site.roster) && KeptUnheld(site, n) && hops >= 2
    ensures LinksAgree(site, n, site.roster.reserves[n].newHandle, slug, hops)
  {
    var current := site.roster.reserves[n].newHandle;
    SameOwner(site, n);
    RedirectsEnd(site, Profile("@" + n), hops);
    RedirectsEnd(site, Profile("@" + current), hops);
    RedirectsEnd(site, ProfileSlash("@" + n), hops);
    RedirectsEnd(site, ProfileSlash("@" + current), hops);
    RedirectsEnd(site, Page("@" + n, slug), hops);
    RedirectsEnd(site, Page("@" + current, slug), hops);
    RedirectsEnd(site, PageSlash("@" + n, slug), hops);
    RedirectsEnd(site, PageSlash("@" + current, slug), hops);
  }

  /** A kept name that is held leads to its holder, whose profile is not the owner's. */
  lemma HeldLinksPart(site: Site, n: string, hops: nat)
    requires Coherent(site.roster) && n in site.roster.reserves && Held(site.roster, n) && hops >= 2
    ensures Follow(site, Profile("@" + n), hops) !=
            Follow(site, Profile("@" + site.roster.reserves[n].newHandle), hops)
  {
    assert ReserveIsLastMove(site.roster, n);
    var r := site.roster.reserves[n];
    HandleSafe(n);
    HandleSafe(r.newHandle);
    HolderIs(site.roster, r.usrId, r.newHandle);
    RedirectsEnd(site, Profile("@" + n), hops);
    RedirectsEnd(site, Profile("@" + r.newHandle), hops);
    assert Holder(site.roster, n) != r.usrId;
  }

  lemma SameOwner(site: Site, n: string)
    requires Coherent(site.roster) && KeptUnheld(site, n)
    ensures var current := site.roster.reserves[n].newHandle;
      && HandleOf("@" + n) == Some(n) && HandleOf("@" + current) == Some(current)
      && Owner(site, n) == Owner(site, current) == Some(site.roster.reserves[n].usrId)
  {
    assert ReserveIsLastMove(site.roster, n);
    var r := site.roster.reserves[n];
    HandleSafe(n);
    HandleSafe(r.newHandle);
    HolderIs(site.roster, r.usrId, r.newHandle);
  }

  /**
   Over interleaved runs: a live reserve on a name nobody holds keeps its links until it expires or its owner renames,
   whatever everybody else sends, as long as no request of somebody else for the name is already past its look for a
   reserve. Whatever is published meanwhile, the old profile is the owner's.
   */
  lemma LinksSurviveInRaces(w: HandleRaces.World, before: seq<HandleRaces.Move>, moves: seq<HandleRaces.Move>,
                            n: string, later: Site, slug: string)
    requires HandleRaces.Initial(w) && Coherent(w.db)
    requires n in HandleRaces.Run(w, before).db.reserves && !Held(HandleRaces.Run(w, before).db, n)
    requires var t := HandleRaces.Run(w, before); var r := t.db.reserves[n];
      && !KeptNames.InFlight(t, n, r.usrId) && KeptNames.NoRenameOf(t, moves, r.usrId)
      && Live(r, HandleRaces.Run(t, moves).db.now) && later.roster == HandleRaces.Run(t, moves).db
    ensures var r := HandleRaces.Run(w, before).db.reserves[n];
      && LinksAgree(later, n, r.newHandle, slug, 2)
      && Follow(later, Profile("@" + n), 2) == Some(Ok200(r.usrId, Slugs(later, r.usrId)))
  {
    KeptNames.KeptNameSafe(w, before, moves, n);
    UnheldLinksAgree(later, n, slug, 2);
    SameOwner(later, n);
    RedirectsEnd(later, Profile("@" + n), 2);
  }

  /** After the theft of a kept name its links lead to the thief, with the reserve still live. */
  lemma StolenLinksPart(w: HandleRaces.World, dana: string, evan: string, x: string, y: string, z: string, site: Site)
    returns (moves: seq<HandleRaces.Move>)
    requires HandleRaces.TwoPeople(w, dana, evan, x, y, z) && Coherent(w.db)
    ensures var later := site.(roster := HandleRaces.Run(w, moves).db);
      && x in later.roster.reserves && Live(later.roster.reserves[x], later.roster.now)
      && later.roster.reserves[x].usrId == dana
      && Follow(later, Profile("@" + x), 2) == Some(Ok200(evan, Slugs(later, evan)))
  {
    moves := KeptNames.StolenNotTakenBack(w, dana, evan, x, y, z);
    KeptNames.RunKeepsCoherent(w, moves);
    var later := site.(roster := HandleRaces.Run(w, moves).db);
    assert ReserveIsLastMove(later.roster, x);
    HandleSafe(x);
    HolderIs(later.roster, evan, x);
    RedirectsEnd(later, Profile("@" + x), 2);
  }

  /**
   With requests one at a time: for 100 days after a rename, whatever everybody else does and publishes, a link
   made with the old handle ends where the new one's does.
   */
  lemma LinksSurviveRename(site: Site, usr: string, prev: string, next: string, ops: seq<HandleRuns.Op>,
                           later: Site, slug: string)
    requires Inv(site.roster) && IsHandle(next) && prev != next && HandleRuns.AllLegal(ops)
    requires Rename(site.roster, usr, prev, next).1.Renamed?
    requires forall i :: 0 <= i < |ops| ==> !HandleRuns.RenamedBy(ops[i], usr)
    requires later.roster == HandleRuns.Run(Rename(site.roster, usr, prev, next).0, ops)
    requires later.roster.now < site.roster.now + RESERVATION
    ensures Follow(later, Page("@" + prev, slug), 2) == Follow(later, Page("@" + next, slug), 2)
    ensures Follow(later, Profile("@" + prev), 2) == Follow(later, Profile("@" + next), 2) ==
            Some(Ok200(usr, Slugs(later, usr)))
  {
    var s1 := Rename(site.roster, usr, prev, next).0;
    RenameKeepsInv(site.roster, usr, prev, next);
    HandleRuns.KeptNameStaysKept(s1, ops, prev);
    HandleRuns.RunKeepsInv(s1, ops);
    LinksSurvive(later, prev, slug, 2);
    SameOwner(later, prev);
    RedirectsEnd(later, Profile("@" + prev), 2);
  }

  // ---- Reaching a publication ----

  /**
   A publication is reached exactly through a name its publisher controls, the current handle or the one still
   kept for them, with a spelling of its own slug. No other address leads to it.
   */
  lemma PublicationReachedExactly(site: Site, req: Request, url: string)
    requires Coherent(site.roster)
    ensures Follow(site, req, 2) == Some(Found302(url)) <==>
      && (req.Page? || req.PageSlash?) && HandleOf(req.at).Some? && CanonicalSlug(req.slug).Some?
      && Owner(site, HandleOf(req.at).value).Some?
      && var key := (Owner(site, HandleOf(req.at).value).value, CanonicalSlug(req.slug).value);
         key in site.pubs && site.pubs[key].url == url
  {
    RedirectsEnd(site, req, 2);
  }

  /** The owner of a name controls it, by holding it or by having it kept. */
  lemma OwnerControls(site: Site, h: string)
    requires Coherent(site.roster) && Owner(site, h).Some?
    ensures var usr := Owner(site, h).value;
      && usr in site.roster.users && !site.roster.users[usr].kind.ReservedName?
      && (site.roster.users[usr].handle == Some(h)
          || (h in site.roster.reserves && Live(site.roster.reserves[h], site.roster.now)
              && site.roster.reserves[h].usrId == usr && !Held(site.roster, h)))
  {
    if !Held(site.roster, h) {
      assert ReserveIsLastMove(site.roster, h);
    }
  }

  // ---- Publish, then follow ----

  /** The check finds the row that answers to the name, kept names included. */
  lemma CheckedIsOwner(site: Site, name: string, actorSub: string)
    requires Coherent(site.roster) && CheckPublisher(site.roster, site.memberships, name, actorSub).Ok?
    ensures var h := CanonicalHandle(StripAt(name));
      h.Some? && IsHandle(h.value)
      && Owner(site, h.value) == CheckPublisher(site.roster, site.memberships, name, actorSub).value.row.usrId
  {
    var h := CanonicalHandle(StripAt(name)).value;
    HandleFixedPoint(StripAt(name));
    HandleFixedPoint(h);
    if !Held(site.roster, h) {
      MovedRow(site.roster, h);
    }
  }

  lemma AcceptedPut(site: Site, r: PutRequest)
    requires Coherent(site.roster) && CheckPut(site, r).Ok?
    ensures var h := CanonicalHandle(StripAt(r.name));
      var (key, p) := CheckPut(site, r).value;
      && h.Some? && IsHandle(h.value) && Owner(site, h.value) == Some(key.0)
      && CanonicalSlug(r.slug) == Some(key.1) && Some(p.url) == r.url
      && PutPublication(site, r).0 == site.(pubs := site.pubs[key := p])
  {
    CheckedIsOwner(site, r.name, r.actorSub);
  }

  /** Round trip: what was accepted is reached at once, under the name it was put with, in that very spelling. */
  lemma PutThenFollow(site: Site, r: PutRequest)
    requires Coherent(site.roster) && CheckPut(site, r).Ok?
    ensures Follow(PutPublication(site, r).0, Page("@" + CanonicalHandle(StripAt(r.name)).value, r.slug), 2) ==
            Some(Found302(r.url.value))
  {
    AcceptedPut(site, r);
    var h := CanonicalHandle(StripAt(r.name)).value;
    HandleSafe(h);
    RedirectsEnd(PutPublication(site, r).0, Page("@" + h, r.slug), 2);
  }

  /** And what was deleted is reached no more. */
  lemma DeleteThenFollow(site: Site, appId: string, name: string, slug: string, actorSub: string)
    requires Coherent(site.roster) && DeletePublication(site, appId, name, slug, actorSub).1.Deleted?
    ensures Follow(DeletePublication(site, appId, name, slug, actorSub).0,
                   Page("@" + CanonicalHandle(StripAt(name)).value, slug), 2) == Some(NotFound404)
  {
    CheckedIsOwner(site, name, actorSub);
    var h := CanonicalHandle(StripAt(name)).value;
    HandleSafe(h);
    var site' := DeletePublication(site, appId, name, slug, actorSub).0;
    assert Owner(site', h) == Owner(site, h);
    RedirectsEnd(site', Page("@" + h, slug), 2);
  }

  // ---- The public row over the API ----

  datatype UserAnswer = PublicRow(usr: string, handle: string) | MovedRow301(handle: string) | NoSuchUser

  /** `GET /v1/users/{handle}`, which canonicalises in place instead of redirecting. */
  ghost function UserByHandle(site: Site, name: string): UserAnswer {
    match CanonicalHandle(StripAt(name))
    case None => NoSuchUser
    case Some(h) =>
      match ByHandle(site.roster, h)
      case Some(u) =>
        if PublicHandle(u).Some? && u.usrId.Some? then PublicRow(u.usrId.value, PublicHandle(u).value) else NoSuchUser
      case None =>
        var u := ResolveMoved(site.roster, h);
        if u.Some? && PublicHandle(u.value).Some? then MovedRow301(PublicHandle(u.value).value) else NoSuchUser
  }

  /** The API and the pages agree on who answers to a name, and a moved name moves only once. */
  lemma ApiAgrees(site: Site, name: string)
    requires Coherent(site.roster)
    ensures var a := UserByHandle(site, name);
      var h := CanonicalHandle(StripAt(name));
      match a
      case PublicRow(usr, handle) => h == Some(handle) && Owner(site, handle) == Some(usr)
      case MovedRow301(handle) =>
        && h.Some? && Owner(site, h.value).Some? && handle != h.value
        && UserByHandle(site, "@" + handle) == PublicRow(Owner(site, h.value).value, handle)
      case NoSuchUser => h.None? || Owner(site, h.value).None?
  {
    var h := CanonicalHandle(StripAt(name));
    if h.Some? && !Held(site.roster, h.value) {
      MovedRow(site.roster, h.value);
      var u := ResolveMoved(site.roster, h.value);
      if u.Some? {
        HandleSafe(u.value.handle.value);
      }
    }
  }

  // ---- What the publishing handlers answer ----

  /** Who answers to the name of a request. */
  ghost function OwnerOfName(site: Site, name: string): Option<string> {
    match CanonicalHandle(StripAt(name))
    case None => None
    case Some(h) => Owner(site, h)
  }

  lemma FoundIsOwner(site: Site, name: string)
    requires Coherent(site.roster) && CanonicalHandle(StripAt(name)).Some?
    ensures var h := CanonicalHandle(StripAt(name)).value;
      var found := if ByHandle(site.roster, h).Some? then ByHandle(site.roster, h) else ResolveMoved(site.roster, h);
      if found.None? || PublicHandle(found.value).None? || found.value.usrId.None? then OwnerOfName(site, name) == None
      else
        && OwnerOfName(site, name) == found.value.usrId
        && found.value.usrId.value in site.roster.users
        && site.roster.users[found.value.usrId.value] == found.value
  {
    var h := CanonicalHandle(StripAt(name)).value;
    if !Held(site.roster, h) {
      MovedRow(site.roster, h);
    }
  }

  /**
   The publisher check, error by error and for any name, kept ones included: nobody answers to the name, no actor is
   given, or the actor is not on the roster or may not publish under it. Otherwise it names the row and the person.
   */
  lemma CheckedExactly(site: Site, name: string, actorSub: string)
    requires Coherent(site.roster) && PairsUnique(site.memberships)
    ensures var r := CheckPublisher(site.roster, site.memberships, name, actorSub);
      var owner := OwnerOfName(site, name);
      && (r == Err(NoPublisher) <==> owner.None?)
      && (r == Err(NoActor) <==> owner.Some? && actorSub == "")
      && (r.Ok? <==> owner.Some? && actorSub != "" && Enrolled(site.roster, actorSub)
                     && MayPublish(site.roster, site.memberships, Account(site.roster, actorSub), owner.value))
      && (r.Ok? ==> owner.value in site.roster.users
                    && r.value == Publisher(site.roster.users[owner.value], Account(site.roster, actorSub)))
  {
    if CanonicalHandle(StripAt(name)).Some? {
      FoundIsOwner(site, name);
      if OwnerOfName(site, name).Some? && Enrolled(site.roster, actorSub) {
        RolesDecide(site, Account(site.roster, actorSub), OwnerOfName(site, name).value);
      }
    }
  }

  lemma RolesDecide(site: Site, me: string, id: string)
    requires PairsUnique(site.memberships)
    ensures (RoleIn(site.memberships, id, me).Some? && CanPublishAs(RoleIn(site.memberships, id, me).value)) <==>
            exists i :: 0 <= i < |site.memberships| && site.memberships[i].org == id && site.memberships[i].member == me
                        && CanPublishAs(site.memberships[i].role)
  {
    var ms := site.memberships;
    if RoleIn(ms, id, me).Some? {
      var i := RoleInSome(ms, id, me);
    }
    if i :| 0 <= i < |ms| && ms[i].org == id && ms[i].member == me && CanPublishAs(ms[i].role) {
      RoleInExact(ms, id, me, i);
    }
  }

  /** The app may put publications: it is on the roster of apps and active. */
  predicate MayPut(site: Site, appId: string) {
    appId in site.apps && site.apps[appId]
  }

  /** White space at the ends of a title does not count, and a title of nothing else is none. */
  function TitleOf(title: Option<string>): Option<string> {
    if title.None? || AllWhite(title.value) then None else Some(Trim(title.value))
  }

  lemma CleanIsTitle(title: Option<string>)
    ensures CleanTitle(title) == TitleOf(title)
  {
    if title.Some? {
      var left, right := TrimSplits(title.value);
      if AllWhite(title.value) {
        assert title.value == title.value + "" + "";
        TrimWhite(title.value);
      }
    }
  }

  lemma TrimWhite(s: string)
    requires AllWhite(s)
    ensures Trim(s) == ""
  {
    TrimStartStrips(s, "");
    assert s + "" == s;
  }

  /**
   When a put is accepted, and which refusal comes otherwise, in the order of the handler: the publisher check, the
   slug, which must not name an app, the app, the url, the title, the owner of the slug. An accepted put stores
   exactly the url, the title and the app given, under the publisher's id, and changes no other row.
   */
  lemma PutExactly(site: Site, r: PutRequest)
    requires Coherent(site.roster) && PairsUnique(site.memberships)
    ensures var (site', a) := PutPublication(site, r);
      var checked := CheckPublisher(site.roster, site.memberships, r.name, r.actorSub);
      var slug, title := CanonicalSlug(r.slug), TitleOf(r.title);
      if checked.Err? then a == Refused(checked.error) && site' == site
      else if slug.None? || slug.value in site.apps then a == BadSlug && site' == site
      else if !MayPut(site, r.appId) then a == AppInactive && site' == site
      else if r.url.None? then a == BadUrl && site' == site
      else if title.Some? && |title.value| > 120 then a == BadTitle && site' == site
      else
        var key := (OwnerOfName(site, r.name).value, slug.value);
        if key in site.pubs && site.pubs[key].appId != r.appId then a == OtherApp && site' == site
        else
          && a == (if key in site.pubs then Replaced else Created)
          && site' == site.(pubs := site.pubs[key := Publication(r.url.value, title, r.appId)])
  {
    CheckedExactly(site, r.name, r.actorSub);
    CleanIsTitle(r.title);
    if CheckPublisher(site.roster, site.memberships, r.name, r.actorSub).Ok? {
      CheckedIsOwner(site, r.name, r.actorSub);
    }
  }

  /** The same for a delete: only the app that put the row removes it, and only that row goes. */
  lemma DeleteExactly(site: Site, appId: string, name: string, slugInput: string, actorSub: string)
    requires Coherent(site.roster) && PairsUnique(site.memberships)
    ensures var (site', a) := DeletePublication(site, appId, name, slugInput, actorSub);
      var checked := CheckPublisher(site.roster, site.memberships, name, actorSub);
      var slug := CanonicalSlug(slugInput);
      if checked.Err? then a == DeleteRefused(checked.error) && site' == site
      else if slug.None? then a == NoSuchPublication && site' == site
      else
        var key := (OwnerOfName(site, name).value, slug.value);
        if key !in site.pubs then a == NoSuchPublication && site' == site
        else if site.pubs[key].appId != appId then a == OwnedByOtherApp && site' == site
        else a == Deleted && site' == site.(pubs := site.pubs - {key})
  {
    CheckedExactly(site, name, actorSub);
    if CheckPublisher(site.roster, site.memberships, name, actorSub).Ok? {
      CheckedIsOwner(site, name, actorSub);
    }
  }

  /**
   A profile lists exactly the pages that can be followed from it: a slug is on the page of whoever answers to the
   name exactly when it is in the index under them, and then the link leads out to the app.
   */
  lemma ProfileListsPages(site: Site, h: string, slug: string, hops: nat)
    requires Coherent(site.roster) && IsHandle(h) && IsSlug(slug) && Owner(site, h).Some? && hops >= 2
    ensures var usr := Owner(site, h).value;
      && Follow(site, Profile("@" + h), hops) == Some(Ok200(usr, Slugs(site, usr)))
      && (slug in Slugs(site, usr) <==> (usr, slug) in site.pubs)
      && Follow(site, Page("@" + h, slug), hops) ==
           Some(if slug in Slugs(site, usr) then Found302(site.pubs[(usr, slug)].url) else NotFound404)
  {
    SlugsExactly(site, Owner(site, h).value, slug);
    HandleSafe(h);
    SlugSafe(slug);
    RedirectsEnd(site, Profile("@" + h), hops);
    RedirectsEnd(site, Page("@" + h, slug), hops);
  }

  lemma SlugsExactly(site: Site, usr: string, slug: string)
    ensures slug in Slugs(site, usr) <==> (usr, slug) in site.pubs
  {
    if (usr, slug) in site.pubs {
      var key := (usr, slug);
      assert key in site.pubs && key.0 == usr && key.1 == slug;
    }
  }
}
