/**
 Product tokens: issued for a term, shortened by rotation to an overlap of 30 days, revoked for good. Tokens are
 named by their hash; a new one gets a fresh name.
 */
module Tokens {
  import opened Wrappers

  const DAY: nat := 86400
  const DEFAULT_TTL: nat := 365 * DAY
  const OVERLAP: nat := 30 * DAY

  datatype Token = Token(appId: string, scopes: seq<string>, createdAt: nat, expiresAt: nat, revokedAt: Option<nat>)

  datatype State = State(tokens: map<string, Token>, now: nat)

  /** `from` is the token whose scopes the database hands on; which one it is only matters among equally new ones. */
  datatype Op =
    | Issue(appId: string, scopes: seq<string>, ttlDays: Option<nat>, id: string)
    | Rotate(appId: string, scopes: seq<string>, id: string, from: Option<string>)
    | Revoke(appId: string, id: string)
    | Wait(dt: nat)

  function Min(a: nat, b: nat): nat {
    if a < b then a else b
  }

  predicate Active(s: State, id: string) {
    id in s.tokens && s.tokens[id].revokedAt.None? && s.tokens[id].expiresAt > s.now
  }

  predicate ActiveFor(s: State, appId: string, id: string) {
    Active(s, id) && s.tokens[id].appId == appId
  }

  /** A first row of `ORDER BY created_at DESC` among the app's active tokens. */
  predicate Newest(s: State, appId: string, id: string) {
    && ActiveFor(s, appId, id)
    && forall t :: t in s.tokens && ActiveFor(s, appId, t) ==> s.tokens[t].createdAt <= s.tokens[id].createdAt
  }

  ghost predicate Legal(s: State, op: Op) {
    op.Rotate? ==>
      if op.from.Some? then Newest(s, op.appId, op.from.value)
      else forall t :: t in s.tokens ==> !ActiveFor(s, op.appId, t)
  }

  function Verify(s: State, id: string): Option<(string, seq<string>)> {
    if Active(s, id) then Some((s.tokens[id].appId, s.tokens[id].scopes)) else None
  }

  function IssueToken(s: State, appId: string, scopes: seq<string>, ttlDays: Option<nat>, id: string): State {
    if id in s.tokens then s
    else
      var ttl := if ttlDays.Some? then ttlDays.value * DAY else DEFAULT_TTL;
      s.(tokens := s.tokens[id := Token(appId, scopes, s.now, s.now + ttl, None)])
  }

  /** The UPDATE of a rotation on one row. */
  function Shortened(t: Token, appId: string, now: nat): Token {
    if t.appId == appId && t.revokedAt.None? && t.expiresAt > now + OVERLAP then t.(expiresAt := now + OVERLAP) else t
  }

  function RotateTokens(s: State, appId: string, scopes: seq<string>, id: string, inherited: seq<string>): State {
    if id in s.tokens then s
    else
      var shortened := map t | t in s.tokens :: Shortened(s.tokens[t], appId, s.now);
      var given := if scopes == [] then inherited else scopes;
      s.(tokens := shortened[id := Token(appId, given, s.now, s.now + DEFAULT_TTL, None)])
  }

  predicate Revocable(s: State, appId: string, id: string) {
    id in s.tokens && s.tokens[id].appId == appId && s.tokens[id].revokedAt.None?
  }

  function RevokeToken(s: State, appId: string, id: string): State {
    if Revocable(s, appId, id) then s.(tokens := s.tokens[id := s.tokens[id].(revokedAt := Some(s.now))]) else s
  }

  function InheritedFrom(s: State, from: Option<string>): seq<string> {
    if from.Some? && from.value in s.tokens then s.tokens[from.value].scopes else []
  }

  function Step(s: State, op: Op): State {
    match op
    case Issue(appId, scopes, ttlDays, id) => IssueToken(s, appId, scopes, ttlDays, id)
    case Rotate(appId, scopes, id, from) => RotateTokens(s, appId, scopes, id, InheritedFrom(s, from))
    case Revoke(appId, id) => RevokeToken(s, appId, id)
    case Wait(dt) => s.(now := s.now + dt)
  }

  function Run(s: State, ops: seq<Op>): State
    decreases |ops|
  {
    if ops == [] then s else Run(Step(s, ops[0]), ops[1..])
  }

  lemma {:induction false} RunConcat(s: State, a: seq<Op>, b: seq<Op>)
    ensures Run(s, a + b) == Run(Run(s, a), b)
    decreases |a|
  {
    if a == [] {
      assert a + b == b;
    } else {
      assert (a + b)[1..] == a[1..] + b;
      RunConcat(Step(s, a[0]), a[1..], b);
    }
  }

  // ---- What a new token is ----

  /**
   An issued token is for the app and the scopes given, for the days given or a year, and touches no other token; a
   name that is taken is refused. It verifies from the start as what it was issued for, unless its term is zero.
   */
  lemma IssuedExactly(s: State, appId: string, scopes: seq<string>, ttlDays: Option<nat>, id: string)
    ensures var s' := Step(s, Issue(appId, scopes, ttlDays, id));
      var days := if ttlDays.Some? then ttlDays.value else 365;
      && (id in s.tokens ==> s' == s)
      && (id !in s.tokens ==>
            && s'.tokens.Keys == s.tokens.Keys + {id} && s'.now == s.now
            && (forall t :: t in s.tokens ==> s'.tokens[t] == s.tokens[t])
            && s'.tokens[id] == Token(appId, scopes, s.now, s.now + days * 86400, None)
            && Verify(s', id) == (if days > 0 then Some((appId, scopes)) else None))
  {
  }

  /**
   A rotated token is for the app, for a year, with the scopes given or else those of a newest active token; the app's
   unrevoked tokens are cut to 30 days where they had more, and every other token is as it was.
   */
  lemma RotatedExactly(s: State, appId: string, scopes: seq<string>, id: string, from: Option<string>)
    requires Legal(s, Rotate(appId, scopes, id, from)) && id !in s.tokens
    ensures var s' := Step(s, Rotate(appId, scopes, id, from));
      var given := if scopes != [] then scopes else if from.Some? then s.tokens[from.value].scopes else [];
      && s'.tokens.Keys == s.tokens.Keys + {id} && s'.now == s.now
      && s'.tokens[id] == Token(appId, given, s.now, s.now + 365 * 86400, None)
      && Verify(s', id) == Some((appId, given))
      && forall t :: t in s.tokens ==>
           if s.tokens[t].appId == appId && s.tokens[t].revokedAt.None? then
             s'.tokens[t] == s.tokens[t].(expiresAt := Min(s.tokens[t].expiresAt, s.now + 30 * 86400))
           else s'.tokens[t] == s.tokens[t]
  {
  }

  /** A name that is taken rolls the whole rotation back, also the shortening. */
  lemma RotationRollsBack(s: State, appId: string, scopes: seq<string>, id: string, from: Option<string>)
    requires id in s.tokens
    ensures Step(s, Rotate(appId, scopes, id, from)) == s
  {
  }

  // ---- The life of one token ----

  /** A rotation of the token's app that goes through while the token is not revoked. */
  predicate Shortens(s: State, op: Op, id: string) {
    && op.Rotate? && op.id !in s.tokens
    && id in s.tokens && s.tokens[id].appId == op.appId && s.tokens[id].revokedAt.None?
  }

  function FirstRotation(s: State, ops: seq<Op>, id: string): Option<nat>
    decreases |ops|
  {
    if ops == [] then None
    else if Shortens(s, ops[0], id) then Some(s.now)
    else FirstRotation(Step(s, ops[0]), ops[1..], id)
  }

  /** What one operation does to a token that is already there. */
  lemma StepLife(s: State, op: Op, id: string)
    requires id in s.tokens
    ensures var s' := Step(s, op);
      && s'.now >= s.now && id in s'.tokens
      && s'.tokens[id].appId == s.tokens[id].appId && s'.tokens[id].scopes == s.tokens[id].scopes
      && s'.tokens[id].createdAt == s.tokens[id].createdAt
      && s'.tokens[id].expiresAt ==
           (if Shortens(s, op, id) then Min(s.tokens[id].expiresAt, s.now + OVERLAP) else s.tokens[id].expiresAt)
      && (s.tokens[id].revokedAt.Some? ==> s'.tokens[id].revokedAt == s.tokens[id].revokedAt)
  {
  }

  lemma {:induction false} LaterRotationsChangeNothing(s: State, ops: seq<Op>, id: string)
    requires id in s.tokens && s.tokens[id].expiresAt <= s.now + OVERLAP
    ensures id in Run(s, ops).tokens && Run(s, ops).tokens[id].expiresAt == s.tokens[id].expiresAt
    decreases |ops|
  {
    if ops != [] {
      StepLife(s, ops[0], id);
      LaterRotationsChangeNothing(Step(s, ops[0]), ops[1..], id);
    }
  }

  function ClosedForm(expiresAt: nat, first: Option<nat>): nat {
    if first.Some? then Min(expiresAt, first.value + OVERLAP) else expiresAt
  }

  /**
   The closed form. After any run of issues, rotations and revocations of any apps, a token expires at its
   original time or 30 days after the first rotation of its app that found it unrevoked, whichever is earlier.
   */
  lemma {:induction false} ExpiryClosedForm(s: State, ops: seq<Op>, id: string)
    requires id in s.tokens
    ensures id in Run(s, ops).tokens
    ensures Run(s, ops).tokens[id].expiresAt == ClosedForm(s.tokens[id].expiresAt, FirstRotation(s, ops, id))
    decreases |ops|
  {
    if ops != [] {
      StepLife(s, ops[0], id);
      if Shortens(s, ops[0], id) {
        LaterRotationsChangeNothing(Step(s, ops[0]), ops[1..], id);
      } else {
        ExpiryClosedForm(Step(s, ops[0]), ops[1..], id);
      }
    }
  }

  /** For a token made by a rotation: 365 days, or 30 days after the next rotation. */
  lemma RotationClosedForm(s: State, before: seq<Op>, rotation: Op, later: seq<Op>)
    requires rotation.Rotate? && rotation.id !in Run(s, before).tokens
    ensures var s1 := Run(s, before);
      var s2 := Run(s, before + [rotation] + later);
      && rotation.id in s2.tokens
      && s2.tokens[rotation.id].expiresAt ==
           ClosedForm(s1.now + DEFAULT_TTL, FirstRotation(Step(s1, rotation), later, rotation.id))
  {
    var s1 := Run(s, before);
    RunConcat(s, before, [rotation] + later);
    assert before + [rotation] + later == before + ([rotation] + later);
    assert ([rotation] + later)[1..] == later;
    ExpiryClosedForm(Step(s1, rotation), later, rotation.id);
  }

  /** What a token stands for never changes, its expiry never moves back, and a revocation is for ever. */
  lemma {:induction false} NeverExtended(s: State, ops: seq<Op>, id: string)
    requires id in s.tokens
    ensures var s' := Run(s, ops);
      && id in s'.tokens && s'.now >= s.now
      && s'.tokens[id].appId == s.tokens[id].appId && s'.tokens[id].scopes == s.tokens[id].scopes
      && s'.tokens[id].createdAt == s.tokens[id].createdAt
      && s'.tokens[id].expiresAt <= s.tokens[id].expiresAt
      && (s.tokens[id].revokedAt.Some? ==> s'.tokens[id].revokedAt == s.tokens[id].revokedAt)
    decreases |ops|
  {
    if ops != [] {
      StepLife(s, ops[0], id);
      NeverExtended(Step(s, ops[0]), ops[1..], id);
    }
  }

  /**
   When a token verifies, exactly: until the closed form runs out or it is revoked, and always as the same app
   with the same scopes. In particular the 30 days of overlap are kept, and no token ever comes back.
   */
  lemma VerifiesExactly(s: State, ops: seq<Op>, id: string)
    requires id in s.tokens
    ensures var s' := Run(s, ops);
      && id in s'.tokens
      && Verify(s', id) ==
           (if s'.tokens[id].revokedAt.None? && s'.now < ClosedForm(s.tokens[id].expiresAt, FirstRotation(s, ops, id))
            then Some((s.tokens[id].appId, s.tokens[id].scopes)) else None)
      && (Verify(s, id).None? ==> Verify(s', id).None?)
  {
    ExpiryClosedForm(s, ops, id);
    NeverExtended(s, ops, id);
  }

  // ---- Revocation ----

  predicate Revokes(s: State, op: Op, id: string) {
    && op.Revoke? && op.id == id
    && id in s.tokens && s.tokens[id].appId == op.appId && s.tokens[id].revokedAt.None?
  }

  ghost predicate RevokedIn(s: State, ops: seq<Op>, id: string)
    decreases |ops|
  {
    ops != [] && (Revokes(s, ops[0], id) || RevokedIn(Step(s, ops[0]), ops[1..], id))
  }

  /** A revoke marks exactly the token it names, if that is the app's own and not revoked, and no other. */
  lemma RevokeMarksOne(s: State, appId: string, id: string)
    ensures var s' := Step(s, Revoke(appId, id));
      if id in s.tokens && s.tokens[id].appId == appId && s.tokens[id].revokedAt.None? then
        s' == s.(tokens := s.tokens[id := s.tokens[id].(revokedAt := Some(s.now))]) && Verify(s', id).None?
      else s' == s
  {
  }

  /** Only a Revoke that names both the token and its own app revokes it. */
  lemma {:induction false} RevokedExactly(s: State, ops: seq<Op>, id: string)
    requires id in s.tokens && s.tokens[id].revokedAt.None?
    ensures id in Run(s, ops).tokens
    ensures Run(s, ops).tokens[id].revokedAt.Some? <==> RevokedIn(s, ops, id)
    decreases |ops|
  {
    if ops != [] {
      StepLife(s, ops[0], id);
      if Revokes(s, ops[0], id) {
        NeverExtended(Step(s, ops[0]), ops[1..], id);
      } else {
        RevokedExactly(Step(s, ops[0]), ops[1..], id);
      }
    }
  }

  // ---- Scopes handed on by empty rotations ----

  lemma {:induction false} SomeNewest(s: State, appId: string, ids: set<string>) returns (id: string)
    requires ids != {} && ids <= s.tokens.Keys && forall t :: t in ids ==> ActiveFor(s, appId, t)
    ensures id in ids && forall t :: t in ids ==> s.tokens[t].createdAt <= s.tokens[id].createdAt
    decreases |ids|
  {
    id :| id in ids;
    if ids != {id} {
      var rest := ids - {id};
      assert rest != {};
      var best := SomeNewest(s, appId, rest);
      if s.tokens[id].createdAt < s.tokens[best].createdAt {
        id := best;
      }
    }
  }

  /** An app with an active token has a newest one, so a rotation always finds what the ORDER BY asks for. */
  lemma NewestExists(s: State, appId: string, t: string) returns (id: string)
    requires ActiveFor(s, appId, t)
    ensures Newest(s, appId, id)
  {
    var ids := set x | x in s.tokens && ActiveFor(s, appId, x);
    assert t in ids;
    id := SomeNewest(s, appId, ids);
  }

  /** Every token the app made from `since` on has these scopes. */
  predicate Line(s: State, appId: string, since: nat, scopes: seq<string>) {
    && since <= s.now
    && forall t :: t in s.tokens && s.tokens[t].appId == appId && s.tokens[t].createdAt >= since ==>
         s.tokens[t].scopes == scopes
  }

  /** One of the app's tokens made from `since` on is active. */
  predicate LineActive(s: State, appId: string, since: nat) {
    exists t :: t in s.tokens && ActiveFor(s, appId, t) && s.tokens[t].createdAt >= since
  }

  /**
   The app's tokens are renewed by empty rotations, each while some token made from `since` on is active; tokens
   that name the same scopes may be issued or rotated in at any time. Other apps, revocations, waiting, and several
   operations at the same instant are unrestricted.
   */
  ghost predicate Chain(s: State, ops: seq<Op>, appId: string, since: nat, scopes: seq<string>)
    decreases |ops|
  {
    ops == [] ||
    var op := ops[0];
    && Legal(s, op)
    && (op.Issue? && op.appId == appId ==> op.scopes == scopes)
    && (op.Rotate? && op.appId == appId ==>
          if op.scopes == [] then LineActive(s, appId, since) else op.scopes == scopes)
    && Chain(Step(s, op), ops[1..], appId, since, scopes)
  }

  lemma StepKeepsLine(s: State, op: Op, appId: string, since: nat, scopes: seq<string>)
    requires Line(s, appId, since, scopes) && Chain(s, [op], appId, since, scopes)
    ensures Line(Step(s, op), appId, since, scopes)
  {
    if op.Rotate? && op.appId == appId && op.scopes == [] {
      var t :| t in s.tokens && ActiveFor(s, appId, t) && s.tokens[t].createdAt >= since;
      assert op.from.Some? && Newest(s, appId, op.from.value);
      assert s.tokens[op.from.value].createdAt >= since;
      assert InheritedFrom(s, op.from) == scopes;
    }
  }

  /**
   A chain of empty rotations keeps the first token's scopes, however long it is: every token the app makes after
   `head`, in whatever order, has them.
   */
  lemma ChainKeepsScopes(s: State, ops: seq<Op>, appId: string, head: string)
    requires head in s.tokens && s.tokens[head].appId == appId
    requires Line(s, appId, s.tokens[head].createdAt, s.tokens[head].scopes)
    requires Chain(s, ops, appId, s.tokens[head].createdAt, s.tokens[head].scopes)
    ensures Line(Run(s, ops), appId, s.tokens[head].createdAt, s.tokens[head].scopes)
  {
    RunKeepsLine(s, ops, appId, s.tokens[head].createdAt, s.tokens[head].scopes);
  }

  lemma {:induction false} RunKeepsLine(s: State, ops: seq<Op>, appId: string, since: nat, scopes: seq<string>)
    requires Line(s, appId, since, scopes) && Chain(s, ops, appId, since, scopes)
    ensures Line(Run(s, ops), appId, since, scopes)
    decreases |ops|
  {
    if ops != [] {
      assert Chain(s, [ops[0]], appId, since, scopes);
      StepKeepsLine(s, ops[0], appId, since, scopes);
      RunKeepsLine(Step(s, ops[0]), ops[1..], appId, since, scopes);
    }
  }

  /**
   An empty rotation makes a token without scopes exactly when the app has no active token, or the newest active
   one has none itself. So a chain breaks as soon as it waits past its last token's expiry.
   */
  lemma EmptyRotationExact(s: State, appId: string, id: string, from: Option<string>)
    requires Legal(s, Rotate(appId, [], id, from)) && id !in s.tokens
    ensures id in Step(s, Rotate(appId, [], id, from)).tokens
    ensures Step(s, Rotate(appId, [], id, from)).tokens[id].scopes == [] <==>
            (forall t :: t in s.tokens ==> !ActiveFor(s, appId, t))
            || (from.Some? && Newest(s, appId, from.value) && s.tokens[from.value].scopes == [])
  {
    if from.Some? {
      assert ActiveFor(s, appId, from.value);
    }
  }

  // ---- The store ----

  class Store {
    var tokens: map<string, Token>
    var now: nat

    ghost function View(): State
      reads this
    {
      State(tokens, now)
    }

    constructor (tokens: map<string, Token>, now: nat)
      ensures View() == State(tokens, now)
    {
      this.tokens, this.now := tokens, now;
    }

    method Issue(appId: string, scopes: seq<string>, ttlDays: Option<nat>, id: string) returns (expiresAt: Option<nat>)
      modifies this`tokens
      ensures View() == IssueToken(old(View()), appId, scopes, ttlDays, id)
      ensures expiresAt == if id in old(tokens) then None else Some(tokens[id].expiresAt)
    {
      if id in tokens {
        return None;
      }
      var ttl := match ttlDays case Some(days) => days case None => 365;
      tokens := tokens[id := Token(appId, scopes, now, now + ttl * DAY, None)];
      return Some(now + ttl * DAY);
    }

    method VerifyToken(id: string) returns (principal: Option<(string, seq<string>)>)
      ensures principal == Verify(View(), id)
    {
      if id in tokens {
        var t := tokens[id];
        if t.revokedAt == None && t.expiresAt > now {
          return Some((t.appId, t.scopes));
        }
      }
      return None;
    }

    /** `LET $inherited`: the scopes of a newest active token, or none. */
    method Inherited(appId: string) returns (scopes: seq<string>, ghost from: Option<string>)
      ensures forall sc, id :: Legal(View(), Op.Rotate(appId, sc, id, from))
      ensures scopes == InheritedFrom(View(), from)
    {
      scopes, from := [], None;
      var best: Option<string> := None;
      var todo := tokens.Keys;
      while todo != {}
        invariant todo <= tokens.Keys
        invariant best.Some? ==> ActiveFor(View(), appId, best.value) && best.value !in todo
        invariant forall t :: t in tokens && t !in todo && ActiveFor(View(), appId, t) ==>
                    best.Some? && tokens[t].createdAt <= tokens[best.value].createdAt
        decreases |todo|
      {
        var t :| t in todo;
        todo := todo - {t};
        if tokens[t].appId == appId && tokens[t].revokedAt == None && tokens[t].expiresAt > now {
          if best == None || tokens[best.value].createdAt < tokens[t].createdAt {
            best := Some(t);
          }
        }
      }
      from := best;
      if best.Some? {
        scopes := tokens[best.value].scopes;
      }
    }

    /** The UPDATE of a rotation over the whole table. */
    method ShortenAll(appId: string)
      modifies this`tokens
      ensures tokens == map t | t in old(tokens) :: Shortened(old(tokens)[t], appId, now)
    {
      tokens := map t | t in tokens ::
        if tokens[t].appId == appId && tokens[t].revokedAt == None && tokens[t].expiresAt > now + 30 * DAY
        then tokens[t].(expiresAt := now + 30 * DAY) else tokens[t];
    }

    /** The rotation transaction: read the scopes, shorten the old tokens, create the new one or roll back. */
    method Rotate(appId: string, scopes: seq<string>, id: string)
      returns (expiresAt: Option<nat>, ghost from: Option<string>)
      modifies this`tokens
      ensures Legal(old(View()), Op.Rotate(appId, scopes, id, from))
      ensures View() == Step(old(View()), Op.Rotate(appId, scopes, id, from))
      ensures expiresAt == if id in old(tokens) then None else Some(now + DEFAULT_TTL)
    {
      var saved := tokens;
      var inherited;
      inherited, from := Inherited(appId);
      ShortenAll(appId);
      assert tokens.Keys == saved.Keys;
      if id in tokens {
        tokens := saved;
        return None, from;
      }
      var given := if scopes == [] then inherited else scopes;
      tokens := tokens[id := Token(appId, given, now, now + 365 * DAY, None)];
      expiresAt := Some(now + 365 * DAY);
    }

    method Revoke(appId: string, id: string) returns (revoked: bool)
      modifies this`tokens
      ensures revoked <==> Revocable(old(View()), appId, id)
      ensures View() == RevokeToken(old(View()), appId, id)
    {
      revoked := id in tokens && tokens[id].appId == appId && tokens[id].revokedAt == None;
      if revoked {
        tokens := tokens[id := tokens[id].(revokedAt := Some(now))];
      }
    }
  }
}
