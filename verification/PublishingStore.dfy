/**
 The publishing handlers as the program runs them: loops that collect a person's names, look-ups from the name to
 the person, and an index updated in place.
 */
module PublishingStore {
  import opened Wrappers
  import opened Names
  import opened Roster
  import opened Publishing
  import HandleStore

  class Store {
    const roster: HandleStore.Store
    var memberships: seq<Membership>
    var pubs: map<(string, string), Publication>
    var apps: map<string, bool>

    ghost function View(): Site
      reads this, roster
    {
      Site(roster.View(), memberships, pubs, apps)
    }

    ghost predicate Valid()
      reads this, roster
    {
      Coherent(roster.View()) && PairsUnique(memberships)
    }

    constructor (roster: HandleStore.Store, memberships: seq<Membership>, pubs: map<(string, string), Publication>,
                 apps: map<string, bool>)
      ensures View() == Site(roster.View(), memberships, pubs, apps)
    {
      this.roster, this.memberships, this.pubs, this.apps := roster, memberships, pubs, apps;
    }

    /** The person's organizations, in the order of joining; those without a handle are skipped. */
    method OrgsOf(member: string) returns (out: seq<(User, string)>)
      requires Valid()
      ensures out == Publishing.OrgsOf(roster.View(), memberships, member)
    {
      out := [];
      for k := 0 to |memberships|
        invariant out == Publishing.OrgsOf(roster.View(), memberships[..k], member)
      {
        assert memberships[..k + 1][..k] == memberships[..k];
        if memberships[k].member == member {
          var org := roster.GetUserById(memberships[k].org);
          if org.Some? && org.value.kind.Organization? && org.value.handle.Some? {
            out := out + [(org.value, memberships[k].role)];
          }
        }
      }
      assert memberships[..|memberships|] == memberships;
    }

    /** The loop over the organizations: those in which the role allows publishing. */
    method PushOrgs(own: seq<Listed>, orgs: seq<(User, string)>) returns (list: seq<Listed>)
      ensures list == own + OfferedOrgs(orgs)
    {
      list := own;
      for k := 0 to |orgs|
        invariant list == own + OfferedOrgs(orgs[..k])
      {
        assert orgs[..k + 1][..k] == orgs[..k];
        var (org, role) := orgs[k];
        if CanPublishAs(role) {
          if PublicHandle(org).Some? {
            list := list + [Listed(org.usrId, PublicHandle(org).value, org.kind, Some(role))];
          }
        }
      }
      assert orgs[..|orgs|] == orgs;
    }

    /** First contact if need be, then the own name and the organizations. */
    method MyPublishers(sub: string, newIds: nat -> string, conflict: nat -> bool)
      returns (r: Result<seq<Listed>, DbError>)
      requires Valid()
      modifies roster`users
      ensures r == Err(WriteConflict) <==>
                !Enrolled(old(roster.View()), sub) && HandleStore.AlwaysConflicts(conflict, 3)
      ensures r == Err(WriteConflict) ==> View() == old(View())
      ensures r != Err(WriteConflict) ==>
                (roster.View(), r) ==
                  Publishing.MyPublishers(old(roster.View()), memberships, sub, newIds(HandleStore.FirstFree(conflict)))
    {
      ghost var before := roster.View();
      var found := roster.EnsureUser(sub, newIds, conflict);
      if found.Err? {
        return Err(found.error);
      }
      EnsureUserKeepsCoherent(before, sub, newIds(HandleStore.FirstFree(conflict)));
      var me := found.value;
      var list := if PublicHandle(me).Some? then [Listed(me.usrId, PublicHandle(me).value, me.kind, None)] else [];
      assert list == Offered(me, None);
      var orgs := OrgsOf(if me.usrId.Some? then me.usrId.value else "");
      list := PushOrgs(list, orgs);
      return Ok(list);
    }

    method ResolveMovedHandle(h: string) returns (u: Option<User>)
      requires Valid()
      ensures u == ResolveMoved(roster.View(), h)
    {
      var reserve := roster.GetReserve(h);
      if reserve.None? {
        return None;
      }
      u := roster.GetUserById(reserve.value.usrId);
      if u.Some? && !(u.value.handle.Some? && u.value.kind == Person) {
        u := None;
      }
    }

    method MembershipRole(org: string, member: string) returns (role: Option<string>)
      ensures role == RoleIn(memberships, org, member)
    {
      for k := 0 to |memberships|
        invariant RoleIn(memberships[k..], org, member) == RoleIn(memberships, org, member)
      {
        assert memberships[k..][0] == memberships[k] && memberships[k..][1..] == memberships[k + 1..];
        if memberships[k].org == org && memberships[k].member == member {
          return Some(memberships[k].role);
        }
      }
      return None;
    }

    method CheckPublisher(name: string, actorSub: string) returns (r: Result<Publisher, CheckError>)
      requires Valid()
      ensures r == Publishing.CheckPublisher(roster.View(), memberships, name, actorSub)
    {
      var h := CanonicalHandle(StripAt(name));
      if h.None? {
        return Err(NoPublisher);
      }
      var found := roster.GetUserByHandle(h.value);
      if found.None? {
        found := ResolveMovedHandle(h.value);
      }
      if found.None? || PublicHandle(found.value).None? || found.value.usrId.None? {
        return Err(NoPublisher);
      }
      if actorSub == "" {
        return Err(NoActor);
      }
      var actor := roster.GetUserBySub(actorSub);
      if actor.None? || actor.value.usrId.None? {
        return Err(NotMember);
      }
      var me := actor.value.usrId.value;
      var allowed := found.value.usrId.value == me;
      if found.value.kind.Organization? {
        var role := MembershipRole(found.value.usrId.value, me);
        allowed := role.Some? && CanPublishAs(role.value);
      }
      return if allowed then Ok(Publisher(found.value, me)) else Err(NotMember);
    }

    /** Look, then write, with up to three attempts. */
    method Upsert(key: (string, string), p: Publication, conflict: nat -> bool) returns (a: Result<PutAnswer, DbError>)
      modifies this`pubs
      ensures a.Err? <==> HandleStore.AlwaysConflicts(conflict, 3)
      ensures a.Err? ==> a.error == WriteConflict && pubs == old(pubs)
      ensures a.Ok? ==> pubs == old(pubs)[key := p] && a.value == if key in old(pubs) then Replaced else Created
    {
      for attempt := 0 to 3
        invariant pubs == old(pubs)
        invariant HandleStore.AlwaysConflicts(conflict, attempt)
      {
        var existed := key in pubs;
        if !conflict(attempt) {
          pubs := pubs[key := p];
          return Ok(if existed then Replaced else Created);
        }
      }
      return Err(WriteConflict);
    }

    /** Checks in the order of the handler, then the write. */
    method PutPublication(r: PutRequest, conflict: nat -> bool) returns (a: Result<PutAnswer, DbError>)
      requires Valid()
      modifies this`pubs
      ensures a.Err? <==> CheckPut(old(View()), r).Ok? && HandleStore.AlwaysConflicts(conflict, 3)
      ensures a.Err? ==> a.error == WriteConflict && View() == old(View())
      ensures a.Ok? ==> (View(), a.value) == Publishing.PutPublication(old(View()), r)
    {
      var checked := CheckPublisher(r.name, r.actorSub);
      if checked.Err? {
        return Ok(Refused(checked.error));
      }
      var slug := CanonicalSlug(r.slug);
      if slug.None? || slug.value in apps {
        return Ok(BadSlug);
      }
      if r.appId !in apps || !apps[r.appId] {
        return Ok(AppInactive);
      }
      if r.url.None? {
        return Ok(BadUrl);
      }
      var title := CleanTitle(r.title);
      if title.Some? && |title.value| > MAX_TITLE {
        return Ok(BadTitle);
      }
      var key := (checked.value.row.usrId.value, slug.value);
      if key in pubs && pubs[key].appId != r.appId {
        return Ok(OtherApp);
      }
      a := Upsert(key, Publication(r.url.value, title, r.appId), conflict);
    }

    method DeletePublication(appId: string, name: string, slugInput: string, actorSub: string) returns (a: DeleteAnswer)
      requires Valid()
      modifies this`pubs
      ensures (View(), a) == Publishing.DeletePublication(old(View()), appId, name, slugInput, actorSub)
    {
      var checked := CheckPublisher(name, actorSub);
      if checked.Err? {
        return DeleteRefused(checked.error);
      }
      var slug := CanonicalSlug(slugInput);
      if slug.None? {
        return NoSuchPublication;
      }
      var key := (checked.value.row.usrId.value, slug.value);
      if key !in pubs {
        return NoSuchPublication;
      }
      if pubs[key].appId != appId {
        return OwnedByOtherApp;
      }
      pubs := pubs - {key};
      return Deleted;
    }

    /** The two unique columns of `org_membership` refuse a second row for the same pair. */
    method AddMember(m: Membership) returns (added: bool)
      requires Valid()
      modifies this`memberships
      ensures Valid()
      ensures View() == SiteStep(old(View()), Join(m))
      ensures added <==> memberships == old(memberships) + [m]
    {
      var taken := false;
      for k := 0 to |memberships|
        invariant taken <==> exists i :: 0 <= i < k && memberships[i].org == m.org && memberships[i].member == m.member
      {
        if memberships[k].org == m.org && memberships[k].member == m.member {
          taken := true;
        }
      }
      added := !taken;
      if taken {
        assert !PairsUnique(memberships + [m]) by {
          var i :| 0 <= i < |memberships| && memberships[i].org == m.org && memberships[i].member == m.member;
          assert (memberships + [m])[i] == memberships[i] && (memberships + [m])[|memberships|] == m;
        }
        return;
      }
      memberships := memberships + [m];
    }
  }
}
