/**
 Who may publish under which name, and the index of publications. A person publishes under their own handle and
 under the organizations they belong to; the app that registered a publication is the only one to change it.
 */
module Publishing {
  import opened Wrappers
  import opened Names
  import opened Roster
  import HandleRuns

  const MAX_TITLE: nat := 120

  /** A row of `org_membership`; the rows are in the order of joining. */
  datatype Membership = Membership(org: string, member: string, role: string)

  datatype Publication = Publication(url: string, title: Option<string>, appId: string)

  /** Publications are keyed by the publisher's `usrId` and the slug, apps say whether they are active. */
  datatype Site = Site(roster: State, memberships: seq<Membership>, pubs: map<(string, string), Publication>,
                       apps: map<string, bool>)

  datatype Listed = Listed(usrId: Option<string>, handle: string, kind: Kind, role: Option<string>)

  datatype Publisher = Publisher(row: User, actor: string)

  datatype CheckError = NoPublisher | NoActor | NotMember

  predicate CanPublishAs(role: string) {
    role == "owner" || role == "admin" || role == "member"
  }

  /** The unique index on organization and member. */
  predicate PairsUnique(ms: seq<Membership>) {
    forall i, j :: 0 <= i < j < |ms| ==> ms[i].org != ms[j].org || ms[i].member != ms[j].member
  }

  /** The public handle of a row: persons and organizations with a handle have one, reserved names do not. */
  function PublicHandle(u: User): Option<string> {
    if u.kind.ReservedName? then None else u.handle
  }

  // ---- From the person to the names ----

  /** What one membership contributes: its organization, if that has a handle. */
  function OrgOf(s: State, m: Membership, member: string): seq<(User, string)> {
    var org := UserById(s, m.org);
    if m.member == member && org.Some? && org.value.kind.Organization? && org.value.handle.Some?
    then [(org.value, m.role)] else []
  }

  function OrgsOf(s: State, ms: seq<Membership>, member: string): seq<(User, string)> {
    if ms == [] then [] else OrgsOf(s, ms[..|ms| - 1], member) + OrgOf(s, ms[|ms| - 1], member)
  }

  function Offered(u: User, role: Option<string>): seq<Listed> {
    if PublicHandle(u).Some? && (role.Some? ==> CanPublishAs(role.value))
    then [Listed(u.usrId, PublicHandle(u).value, u.kind, role)] else []
  }

  function OfferedOrgs(orgs: seq<(User, string)>): seq<Listed> {
    if orgs == [] then []
    else
      var (org, role) := orgs[|orgs| - 1];
      OfferedOrgs(orgs[..|orgs| - 1]) + Offered(org, Some(role))
  }

  /** The names a signed-in person is offered. First contact creates the row. */
  ghost function MyPublishers(s: State, ms: seq<Membership>, sub: string, newId: string)
    : (State, Result<seq<Listed>, DbError>)
  {
    var (s', me) := EnsureUser(s, sub, newId);
    match me
    case Err(e) => (s', Err(e))
    case Ok(u) =>
      (s', Ok(Offered(u, None) + OfferedOrgs(OrgsOf(s', ms, if u.usrId.Some? then u.usrId.value else ""))))
  }

  /** Persons and organizations with a handle are public, reserved names and the nameless are not. */
  lemma PublicExactly(u: User)
    ensures PublicHandle(u).Some? <==> u.handle.Some? && (u.kind == Person || u.kind == Organization)
    ensures PublicHandle(u).Some? ==> PublicHandle(u) == u.handle
  {
  }

  /** One of the person's memberships, in an organization that has a handle. */
  ghost predicate NamedMembership(s: State, ms: seq<Membership>, member: string, org: User, role: string) {
    exists i :: 0 <= i < |ms| && ms[i].member == member && ms[i].role == role
                && UserById(s, ms[i].org) == Some(org) && org.kind == Organization && org.handle.Some?
  }

  /** The organizations of a person are exactly those, each with the role of its membership. */
  lemma {:induction false} OrgsExactly(s: State, ms: seq<Membership>, member: string, org: User, role: string)
    ensures (org, role) in OrgsOf(s, ms, member) <==> NamedMembership(s, ms, member, org, role)
  {
    if ms != [] {
      var n := |ms| - 1;
      OrgsExactly(s, ms[..n], member, org, role);
      assert forall i :: 0 <= i < n ==> ms[..n][i] == ms[i];
      assert ms[n] == ms[|ms| - 1];
    }
  }

  /** An offer shows the row as it is, and the role it came with. */
  predicate Shows(l: Listed, u: User, role: Option<string>) {
    l.usrId == u.usrId && Some(l.handle) == u.handle && l.kind == u.kind && l.role == role
  }

  lemma {:induction false} OfferedFromOrgs(orgs: seq<(User, string)>, k: nat)
    requires k < |OfferedOrgs(orgs)|
    ensures exists x :: x in orgs && x.1 in {"owner", "admin", "member"} && Shows(OfferedOrgs(orgs)[k], x.0, Some(x.1))
  {
    var n := |orgs| - 1;
    var before := OfferedOrgs(orgs[..n]);
    assert orgs[n] in orgs && forall x :: x in orgs[..n] ==> x in orgs;
    if k < |before| {
      OfferedFromOrgs(orgs[..n], k);
    } else {
      assert Shows(OfferedOrgs(orgs)[k], orgs[n].0, Some(orgs[n].1));
    }
  }

  /** An organization on the list that the person may publish under. */
  ghost predicate ShowsOrg(s: State, ms: seq<Membership>, member: string, l: Listed) {
    exists org, role :: NamedMembership(s, ms, member, org, role)
                        && role in {"owner", "admin", "member"} && Shows(l, org, Some(role))
  }

  lemma OrgShown(s: State, ms: seq<Membership>, member: string, k: nat)
    requires k < |OfferedOrgs(OrgsOf(s, ms, member))|
    ensures ShowsOrg(s, ms, member, OfferedOrgs(OrgsOf(s, ms, member))[k])
  {
    var orgs := OrgsOf(s, ms, member);
    OfferedFromOrgs(orgs, k);
    var x :| x in orgs && x.1 in {"owner", "admin", "member"} && Shows(OfferedOrgs(orgs)[k], x.0, Some(x.1));
    OrgsExactly(s, ms, member, x.0, x.1);
  }

  /**
   Every entry of a person's list is right: their own row without a role, or an organization they belong to with a
   publishing role, shown with its own id, handle and kind and with the role of the membership.
   */
  lemma ListedRight(s: State, ms: seq<Membership>, sub: string, newId: string, k: nat)
    requires Coherent(s) && Enrolled(s, sub)
    requires MyPublishers(s, ms, sub, newId).1.Ok? && k < |MyPublishers(s, ms, sub, newId).1.value|
    ensures var l := MyPublishers(s, ms, sub, newId).1.value[k];
      Shows(l, s.users[Account(s, sub)], None) || ShowsOrg(s, ms, Account(s, sub), l)
  {
    var own := Offered(s.users[Account(s, sub)], None);
    if k >= |own| {
      OrgShown(s, ms, Account(s, sub), k - |own|);
    }
  }

  // ---- From the name to the person ----

  ghost function ByHandle(s: State, h: string): Option<User> {
    if Held(s, h) then Some(s.users[Holder(s, h)]) else None
  }

  ghost function BySub(s: State, sub: string): Option<User> {
    if Enrolled(s, sub) then Some(s.users[Account(s, sub)]) else None
  }

  /** The row of the person a name is kept for. */
  function ResolveMoved(s: State, h: string): Option<User> {
    if h in s.reserves && Live(s.reserves[h], s.now) then
      var u := UserById(s, s.reserves[h].usrId);
      if u.Some? && u.value.handle.Some? && u.value.kind.Person? then u else None
    else None
  }

  /** A name leads elsewhere exactly while its reserve is live and the owner is a person with a handle. */
  lemma ResolvesExactly(s: State, h: string, u: User)
    ensures ResolveMoved(s, h) == Some(u) <==>
      && h in s.reserves && s.reserves[h].expiresAt > s.now
      && UserById(s, s.reserves[h].usrId) == Some(u) && u.handle.Some? && u.kind == Person
  {
  }

  function StripAt(h: string): string {
    if h != "" && h[0] == '@' then h[1..] else h
  }

  function RoleIn(ms: seq<Membership>, org: string, member: string): Option<string> {
    if ms == [] then None
    else if ms[0].org == org && ms[0].member == member then Some(ms[0].role)
    else RoleIn(ms[1..], org, member)
  }

  ghost function CheckPublisher(s: State, ms: seq<Membership>, name: string, actorSub: string)
    : Result<Publisher, CheckError>
  {
    match CanonicalHandle(StripAt(name))
    case None => Err(NoPublisher)
    case Some(h) =>
      var found := if ByHandle(s, h).Some? then ByHandle(s, h) else ResolveMoved(s, h);
      if found.None? || PublicHandle(found.value).None? || found.value.usrId.None? then Err(NoPublisher)
      else if actorSub == "" then Err(NoActor)
      else
        var row, actor := found.value, BySub(s, actorSub);
        if actor.None? || actor.value.usrId.None? then Err(NotMember)
        else
          var me := actor.value.usrId.value;
          var role := RoleIn(ms, row.usrId.value, me);
          if (if row.kind.Organization? then role.Some? && CanPublishAs(role.value) else row.usrId == Some(me))
          then Ok(Publisher(row, me)) else Err(NotMember)
  }

  // ---- The two agree ----

  /** The person `me` may publish under the row `usr`: it is their own, or they have a publishing role in it. */
  predicate MayPublish(s: State, ms: seq<Membership>, me: string, usr: string) {
    && usr in s.users
    && match s.users[usr].kind
       case Person => usr == me
       case Organization =>
         exists i :: 0 <= i < |ms| && ms[i].org == usr && ms[i].member == me
                     && ms[i].role in {"owner", "admin", "member"}
       case ReservedName => false
  }

  lemma {:induction false} RoleInExact(ms: seq<Membership>, org: string, member: string, i: nat)
    requires PairsUnique(ms) && i < |ms| && ms[i].org == org && ms[i].member == member
    ensures RoleIn(ms, org, member) == Some(ms[i].role)
  {
    if i > 0 {
      RoleInExact(ms[1..], org, member, i - 1);
    }
  }

  lemma {:induction false} RoleInSome(ms: seq<Membership>, org: string, member: string) returns (i: nat)
    requires RoleIn(ms, org, member).Some?
    ensures i < |ms| && ms[i].org == org && ms[i].member == member && RoleIn(ms, org, member) == Some(ms[i].role)
  {
    i := 0;
    if ms[0].org != org || ms[0].member != member {
      var j := RoleInSome(ms[1..], org, member);
      i := j + 1;
    }
  }

  ghost predicate HasHandle(list: seq<Listed>, h: string) {
    exists k :: 0 <= k < |list| && list[k].handle == h
  }

  lemma HasHandleSplit(a: seq<Listed>, b: seq<Listed>, h: string)
    ensures HasHandle(a + b, h) <==> HasHandle(a, h) || HasHandle(b, h)
  {
    if HasHandle(a, h) {
      var k :| 0 <= k < |a| && a[k].handle == h;
      assert (a + b)[k].handle == h;
    }
    if HasHandle(b, h) {
      var k :| 0 <= k < |b| && b[k].handle == h;
      assert (a + b)[|a| + k].handle == h;
    }
  }

  lemma HasHandleOne(x: Listed, h: string)
    ensures HasHandle([x], h) <==> x.handle == h
  {
    assert [x][0] == x;
  }

  /** The membership puts the handle on the person's list. */
  predicate Offers(s: State, m: Membership, member: string, h: string) {
    && m.member == member && m.role in {"owner", "admin", "member"}
    && m.org in s.users && s.users[m.org].usrId == Some(m.org)
    && s.users[m.org].kind.Organization? && s.users[m.org].handle == Some(h)
  }

  lemma OneOffered(s: State, m: Membership, member: string, h: string)
    ensures HasHandle(OfferedOrgs(OrgOf(s, m, member)), h) <==> Offers(s, m, member, h)
  {
    var orgs := OrgOf(s, m, member);
    if orgs != [] {
      assert orgs[..0] == [];
      var offered := Offered(orgs[0].0, Some(orgs[0].1));
      assert OfferedOrgs(orgs) == offered;
      if offered != [] {
        HasHandleOne(offered[0], h);
      }
    }
  }

  lemma OfferedOrgsConcat(a: seq<(User, string)>, b: seq<(User, string)>)
    requires |b| <= 1
    ensures OfferedOrgs(a + b) == OfferedOrgs(a) + OfferedOrgs(b)
  {
    if b == [] {
      assert a + b == a;
    } else {
      assert (a + b)[..|a + b| - 1] == a;
      assert b[..0] == [];
    }
  }

  lemma {:induction false} OrgsListed(s: State, ms: seq<Membership>, member: string, h: string)
    ensures HasHandle(OfferedOrgs(OrgsOf(s, ms, member)), h) <==>
            exists i :: 0 <= i < |ms| && Offers(s, ms[i], member, h)
  {
    if ms != [] {
      var n := |ms| - 1;
      var before, last := OrgsOf(s, ms[..n], member), OrgOf(s, ms[n], member);
      OrgsListed(s, ms[..n], member, h);
      OfferedOrgsConcat(before, last);
      HasHandleSplit(OfferedOrgs(before), OfferedOrgs(last), h);
      OneOffered(s, ms[n], member, h);
      assert forall i :: 0 <= i < n ==> ms[..n][i] == ms[i];
    }
  }

  /** A handle is on a person's list exactly when they may publish under the row that holds it. */
  lemma ListedExact(s: State, ms: seq<Membership>, sub: string, newId: string, h: string)
    requires Coherent(s) && Held(s, h) && Enrolled(s, sub)
    ensures var (s', list) := MyPublishers(s, ms, sub, newId);
      s' == s && list.Ok? && (HasHandle(list.value, h) <==> MayPublish(s, ms, Account(s, sub), Holder(s, h)))
  {
    var me := s.users[Account(s, sub)];
    var id := Holder(s, h);
    var own := Offered(me, None);
    var orgs := OfferedOrgs(OrgsOf(s, ms, me.usrId.value));
    HasHandleSplit(own, orgs, h);
    OrgsListed(s, ms, me.usrId.value, h);
    if own != [] {
      HasHandleOne(own[0], h);
    }
    assert HasHandle(own, h) <==> me.handle == Some(h);
    forall i | 0 <= i < |ms|
      ensures Offers(s, ms[i], me.usrId.value, h) <==>
              ms[i].org == id && ms[i].member == Account(s, sub) && ms[i].role in {"owner", "admin", "member"}
              && s.users[id].kind.Organization?
    {
    }
  }

  /** The check accepts a current handle exactly for those who may publish under the row that holds it. */
  lemma CheckExact(s: State, ms: seq<Membership>, sub: string, h: string)
    requires Coherent(s) && PairsUnique(ms) && IsHandle(h) && Held(s, h) && sub != ""
    ensures CheckPublisher(s, ms, h, sub).Ok? <==>
            Enrolled(s, sub) && MayPublish(s, ms, Account(s, sub), Holder(s, h))
    ensures CheckPublisher(s, ms, h, sub).Ok? ==>
            CheckPublisher(s, ms, h, sub).value == Publisher(s.users[Holder(s, h)], Account(s, sub))
  {
    HandleFixedPoint(h);
    assert StripAt(h) == h;
    if Enrolled(s, sub) {
      var me, id := Account(s, sub), Holder(s, h);
      if RoleIn(ms, id, me).Some? {
        var i := RoleInSome(ms, id, me);
      }
      if i :| 0 <= i < |ms| && ms[i].org == id && ms[i].member == me && ms[i].role in {"owner", "admin", "member"} {
        RoleInExact(ms, id, me, i);
      }
    }
  }

  /**
   The publisher list and the publisher check agree. For every person and every current handle, the handle is
   on the person's list exactly when the check accepts that person for it, although one walks from the person
   to the names and the other from the name to the person.
   */
  lemma PublishersAgree(s: State, ms: seq<Membership>, sub: string, newId: string, h: string)
    requires Coherent(s) && PairsUnique(ms) && IsHandle(h) && Held(s, h) && sub != "" && Enrolled(s, sub)
    ensures var (s', list) := MyPublishers(s, ms, sub, newId);
      && s' == s && list.Ok?
      && (HasHandle(list.value, h) <==> CheckPublisher(s, ms, h, sub).Ok?)
  {
    ListedExact(s, ms, sub, newId, h);
    CheckExact(s, ms, sub, h);
  }

  /** On first contact the new row's list offers nothing, as long as no membership names the fresh id. */
  lemma FirstContactPublishesNothing(s: State, ms: seq<Membership>, sub: string, newId: string, name: string)
    requires Coherent(s) && !Enrolled(s, sub) && newId !in s.users
    requires forall i :: 0 <= i < |ms| ==> ms[i].member != newId
    ensures MyPublishers(s, ms, sub, newId).1 == Ok([])
    ensures CheckPublisher(s, ms, name, sub).Err?
  {
    var (s', me) := EnsureUser(s, sub, newId);
    assert me.value == User(Some(newId), None, Some(sub), None, Person);
    NoOrgs(s', ms, newId);
    assert MyPublishers(s, ms, sub, newId).1.value == [];
  }

  lemma {:induction false} NoOrgs(s: State, ms: seq<Membership>, member: string)
    requires forall i :: 0 <= i < |ms| ==> ms[i].member != member
    ensures OrgsOf(s, ms, member) == []
  {
    if ms != [] {
      NoOrgs(s, ms[..|ms| - 1], member);
    }
  }

  /**
   While nobody holds a kept name it is as good as the current one: the check gives the same answer for both. Once
   somebody does, the kept name never leads to its owner's row.
   */
  lemma MovedNameChecksTheSame(s: State, ms: seq<Membership>, n: string, sub: string)
    requires Coherent(s) && n in s.reserves && Live(s.reserves[n], s.now)
    ensures !Held(s, n) ==> CheckPublisher(s, ms, n, sub) == CheckPublisher(s, ms, s.reserves[n].newHandle, sub)
    ensures Held(s, n) && CheckPublisher(s, ms, n, sub).Ok? ==>
              CheckPublisher(s, ms, n, sub).value.row.usrId != Some(s.reserves[n].usrId)
  {
    assert ReserveIsLastMove(s, n);
    HandleFixedPoint(n);
    assert StripAt(n) == n;
    if !Held(s, n) {
      UnheldChecksTheSame(s, ms, n, sub);
    } else {
      assert s.users[Holder(s, n)].handle == Some(n);
    }
  }

  lemma UnheldChecksTheSame(s: State, ms: seq<Membership>, n: string, sub: string)
    requires Coherent(s) && n in s.reserves && Live(s.reserves[n], s.now) && !Held(s, n)
    ensures CheckPublisher(s, ms, n, sub) == CheckPublisher(s, ms, s.reserves[n].newHandle, sub)
  {
    assert ReserveIsLastMove(s, n);
    var current := s.reserves[n].newHandle;
    HandleFixedPoint(n);
    HandleFixedPoint(current);
    assert StripAt(n) == n && StripAt(current) == current;
    HolderIs(s, s.reserves[n].usrId, current);
  }

  // ---- The publication index ----

  datatype PutAnswer =
    | Created
    | Replaced
    | Refused(error: CheckError)
    | BadSlug
    | AppInactive
    | BadUrl
    | BadTitle
    | OtherApp

  datatype DeleteAnswer = Deleted | DeleteRefused(error: CheckError) | NoSuchPublication | OwnedByOtherApp

  /** A request of an app whose token has the publishing scope. `url` is what the URL check made of the input. */
  datatype PutRequest = PutRequest(appId: string, name: string, slug: string, actorSub: string,
                                   url: Option<string>, title: Option<string>)

  function CleanTitle(title: Option<string>): Option<string> {
    if title.Some? && Trim(title.value) != "" then Some(Trim(title.value)) else None
  }

  /** What a put checks before it looks at the index, in the order of the handler: the key and row it asks for. */
  ghost function CheckRequest(site: Site, r: PutRequest): Result<((string, string), Publication), PutAnswer> {
    match CheckPublisher(site.roster, site.memberships, r.name, r.actorSub)
    case Err(e) => Err(Refused(e))
    case Ok(p) =>
      var slug := CanonicalSlug(r.slug);
      if slug.None? || slug.value in site.apps then Err(BadSlug)
      else if r.appId !in site.apps || !site.apps[r.appId] then Err(AppInactive)
      else if r.url.None? then Err(BadUrl)
      else if CleanTitle(r.title).Some? && |CleanTitle(r.title).value| > MAX_TITLE then Err(BadTitle)
      else Ok(((p.row.usrId.value, slug.value), Publication(r.url.value, CleanTitle(r.title), r.appId)))
  }

  predicate OwnedByOther(pubs: map<(string, string), Publication>, key: (string, string), appId: string) {
    key in pubs && pubs[key].appId != appId
  }

  ghost function CheckPut(site: Site, r: PutRequest): Result<((string, string), Publication), PutAnswer> {
    var checked := CheckRequest(site, r);
    if checked.Ok? && OwnedByOther(site.pubs, checked.value.0, r.appId) then Err(OtherApp) else checked
  }

  ghost function PutPublication(site: Site, r: PutRequest): (Site, PutAnswer) {
    match CheckPut(site, r)
    case Err(a) => (site, a)
    case Ok((key, p)) =>
      (site.(pubs := site.pubs[key := p]), if key in site.pubs then Replaced else Created)
  }

  /** The row a delete is about, before the handler looks at the index. */
  ghost function CheckDelete(site: Site, name: string, slugInput: string, actorSub: string)
    : Result<(string, string), DeleteAnswer>
  {
    match CheckPublisher(site.roster, site.memberships, name, actorSub)
    case Err(e) => Err(DeleteRefused(e))
    case Ok(p) =>
      var slug := CanonicalSlug(slugInput);
      if slug.None? then Err(NoSuchPublication) else Ok((p.row.usrId.value, slug.value))
  }

  ghost function DeletePublication(site: Site, appId: string, name: string, slugInput: string, actorSub: string)
    : (Site, DeleteAnswer)
  {
    match CheckDelete(site, name, slugInput, actorSub)
    case Err(a) => (site, a)
    case Ok(key) =>
      if key !in site.pubs then (site, NoSuchPublication)
      else if OwnedByOther(site.pubs, key, appId) then (site, OwnedByOtherApp)
      else (site.(pubs := site.pubs - {key}), Deleted)
  }

  // ---- Runs of the whole site ----

  datatype SiteOp =
    | OnRoster(op: HandleRuns.Op)
    | Join(membership: Membership)
    | PutApp(appId: string, active: bool)
    | Put(req: PutRequest)
    | Delete(appId: string, name: string, slug: string, actorSub: string)

  ghost function SiteStep(site: Site, op: SiteOp): Site {
    match op
    case OnRoster(o) => site.(roster := HandleRuns.Step(site.roster, o))
    case Join(m) =>
      if PairsUnique(site.memberships + [m]) then site.(memberships := site.memberships + [m]) else site
    case PutApp(appId, active) => site.(apps := site.apps[appId := active])
    case Put(r) => PutPublication(site, r).0
    case Delete(appId, name, slug, actorSub) => DeletePublication(site, appId, name, slug, actorSub).0
  }

  ghost function SiteRun(site: Site, ops: seq<SiteOp>): Site
    decreases |ops|
  {
    if ops == [] then site else SiteRun(SiteStep(site, ops[0]), ops[1..])
  }

  /** Coherent tables; the results about publications need no more of the roster than racing requests leave. */
  ghost predicate SiteCoherent(site: Site) {
    && Coherent(site.roster) && PairsUnique(site.memberships)
    && forall key :: key in site.pubs ==> IsSlug(key.1) && key.0 in site.roster.users
  }

  ghost predicate SiteInv(site: Site) {
    Inv(site.roster) && SiteCoherent(site)
  }

  predicate LegalSiteOps(ops: seq<SiteOp>) {
    forall i :: 0 <= i < |ops| ==> ops[i].OnRoster? ==> HandleRuns.Legal(ops[i].op)
  }

  lemma ClaimedUsersStay(s: State, op: HandleRuns.Op)
    ensures s.users.Keys <= HandleRuns.Step(s, op).users.Keys
  {
  }

  lemma PublisherRow(s: State, ms: seq<Membership>, name: string, actorSub: string)
    requires Coherent(s) && CheckPublisher(s, ms, name, actorSub).Ok?
    ensures var p := CheckPublisher(s, ms, name, actorSub).value;
      p.row.usrId.Some? && p.row.usrId.value in s.users && s.users[p.row.usrId.value] == p.row
  {
  }

  lemma SiteStepKeepsCoherent(site: Site, op: SiteOp)
    requires SiteCoherent(site) && (op.OnRoster? ==> HandleRuns.Legal(op.op))
    ensures SiteCoherent(SiteStep(site, op))
  {
    match op
    case OnRoster(o) =>
      HandleRuns.StepKeepsCoherent(site.roster, o);
      ClaimedUsersStay(site.roster, o);
    case Put(r) =>
      if CheckPut(site, r).Ok? {
        PublisherRow(site.roster, site.memberships, r.name, r.actorSub);
        SlugFixedPoint(r.slug);
        SlugFixedPoint(CanonicalSlug(r.slug).value);
      }
    case _ =>
  }

  lemma SiteStepKeepsInv(site: Site, op: SiteOp)
    requires SiteInv(site) && (op.OnRoster? ==> HandleRuns.Legal(op.op))
    ensures SiteInv(SiteStep(site, op))
  {
    SiteStepKeepsCoherent(site, op);
    if op.OnRoster? {
      HandleRuns.StepKeepsInv(site.roster, op.op);
    }
  }

  /** What every run of the whole site keeps with requests one at a time. */
  lemma {:induction false} SiteRunKeepsInv(site: Site, ops: seq<SiteOp>)
    requires SiteInv(site) && LegalSiteOps(ops)
    ensures SiteInv(SiteRun(site, ops))
    decreases |ops|
  {
    if ops != [] {
      SiteStepKeepsInv(site, ops[0]);
      SiteRunKeepsInv(SiteStep(site, ops[0]), ops[1..]);
    }
  }

  /** The operation is a put or delete by this app, made by someone who may publish under `usr` at that moment. */
  ghost predicate AuthorizedChange(site: Site, op: SiteOp, usr: string, appId: string) {
    && (op.Put? || op.Delete?)
    && appId == (if op.Put? then op.req.appId else op.appId)
    && var actorSub := if op.Put? then op.req.actorSub else op.actorSub;
       && actorSub != "" && Enrolled(site.roster, actorSub)
       && MayPublish(site.roster, site.memberships, Account(site.roster, actorSub), usr)
  }

  lemma AcceptedMayPublish(s: State, ms: seq<Membership>, name: string, actorSub: string)
    requires Coherent(s) && CheckPublisher(s, ms, name, actorSub).Ok?
    ensures actorSub != "" && Enrolled(s, actorSub)
    ensures MayPublish(s, ms, Account(s, actorSub), CheckPublisher(s, ms, name, actorSub).value.row.usrId.value)
  {
    var p := CheckPublisher(s, ms, name, actorSub).value;
    if RoleIn(ms, p.row.usrId.value, p.actor).Some? {
      var i := RoleInSome(ms, p.row.usrId.value, p.actor);
    }
  }

  lemma PutGuards(site: Site, r: PutRequest, key: (string, string))
    requires SiteCoherent(site) && key in site.pubs
    requires CheckPut(site, r).Ok? && CheckPut(site, r).value.0 == key
    ensures AuthorizedChange(site, Put(r), key.0, site.pubs[key].appId)
  {
    AcceptedMayPublish(site.roster, site.memberships, r.name, r.actorSub);
  }

  lemma DeleteGuards(site: Site, appId: string, name: string, slug: string, actorSub: string, key: (string, string))
    requires SiteCoherent(site) && key in site.pubs
    requires key !in DeletePublication(site, appId, name, slug, actorSub).0.pubs
    ensures AuthorizedChange(site, Delete(appId, name, slug, actorSub), key.0, site.pubs[key].appId)
  {
    AcceptedMayPublish(site.roster, site.memberships, name, actorSub);
  }

  ghost predicate Untouched(site: Site, site': Site, key: (string, string)) {
    key in site.pubs && key in site'.pubs && site'.pubs[key] == site.pubs[key]
  }

  lemma StepGuards(site: Site, op: SiteOp, key: (string, string))
    requires SiteCoherent(site) && key in site.pubs
    ensures Untouched(site, SiteStep(site, op), key) || AuthorizedChange(site, op, key.0, site.pubs[key].appId)
  {
    match op
    case Put(r) =>
      if CheckPut(site, r).Ok? && CheckPut(site, r).value.0 == key {
        PutGuards(site, r, key);
      }
    case Delete(appId, name, slug, actorSub) =>
      if key !in SiteStep(site, op).pubs {
        DeleteGuards(site, appId, name, slug, actorSub, key);
      }
    case _ =>
  }

  ghost predicate NoAuthorizedChange(site: Site, ops: seq<SiteOp>, usr: string, appId: string)
    decreases |ops|
  {
    ops == [] ||
    (!AuthorizedChange(site, ops[0], usr, appId) && NoAuthorizedChange(SiteStep(site, ops[0]), ops[1..], usr, appId))
  }

  /**
   A publication belongs to its app and its publisher. Over any run of renames, claims, joins and other apps'
   requests, each running from its check to its write alone, it stays exactly as it is until its own app changes
   it for someone who may publish under that name. `PublishingRaces` has what is left of this when they interleave.
   */
  lemma {:induction false} PublicationPersists(site: Site, ops: seq<SiteOp>, key: (string, string))
    requires SiteCoherent(site) && LegalSiteOps(ops) && key in site.pubs
    requires NoAuthorizedChange(site, ops, key.0, site.pubs[key].appId)
    ensures key in SiteRun(site, ops).pubs && SiteRun(site, ops).pubs[key] == site.pubs[key]
    decreases |ops|
  {
    if ops != [] {
      StepGuards(site, ops[0], key);
      SiteStepKeepsCoherent(site, ops[0]);
      PublicationPersists(SiteStep(site, ops[0]), ops[1..], key);
    }
  }
}
