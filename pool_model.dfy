/**
  The session-tracking state of a resource pool, as a value, and the effect of
  each hook handler on it.

  A pool tracks
   - `sessions`: async id of a registered resource -> the resource and the set
     of child async ids created while it was active (`refs`);
   - `subsessions`: child async id -> async id of the session that owns it;
   - `active`: the cursor, `None` for JavaScript's `null`.

  Async ids are natural numbers. The source tests ids by truthiness in two
  places (the cursor in `init`, the link value in `before`); there the id 0
  behaves like `null`, and `Truthy` says so. Everywhere else a session or a
  link is looked up by key, and a stored session object is always truthy, so
  those tests are plain map membership.
*/
module PoolModel {

  datatype Option<T> = None | Some(value: T)

  /** One registered resource and the child ids recorded against it. */
  datatype Session<R> = Session(resource: R, refs: set<nat>)

  datatype Pool<R> = Pool(sessions: map<nat, Session<R>>, subsessions: map<nat, nat>, active: Option<nat>)

  /** The pool as the constructor leaves it: both maps empty, cursor null. */
  function EmptyPool<R>(): Pool<R>
  {
    Pool(map[], map[], None)
  }

  /** JavaScript truthiness of the cursor: `null` and `0` are falsy. */
  predicate Truthy(c: Option<nat>)
  {
    c.Some? && c.value != 0
  }

  // ---------------------------------------------------------------------------
  // The operations

  /** `_register`: (re)binds the resource's async id to a fresh session with no refs. */
  function RegisterStep<R>(p: Pool<R>, asyncId: nat, resource: R): Pool<R>
  {
    p.(sessions := p.sessions[asyncId := Session(resource, {})])
  }

  /**
    Whether the `init` handler throws: the cursor is truthy but names no
    session, so reading `_refs` of `undefined` raises a TypeError.
  */
  predicate InitThrows<R>(p: Pool<R>)
  {
    Truthy(p.active) && p.active.value !in p.sessions
  }

  /**
    State after the `init` handler. When it throws, the link has already been
    written (the assignment precedes the failing read), so that write stays.
  */
  function InitStep<R>(p: Pool<R>, asyncId: nat): Pool<R>
  {
    if !Truthy(p.active) then p
    else
      var s := p.active.value;
      var links := p.subsessions[asyncId := s];
      if s in p.sessions then
        var old_ := p.sessions[s];
        Pool(p.sessions[s := old_.(refs := old_.refs + {asyncId})], links, p.active)
      else
        p.(subsessions := links)
  }

  /** The owner `before` resolves `asyncId` to, if any: itself when it is a session, else its truthy link. */
  function Owner<R>(p: Pool<R>, asyncId: nat): Option<nat>
  {
    if asyncId in p.sessions then Some(asyncId)
    else if asyncId in p.subsessions && p.subsessions[asyncId] != 0 then Some(p.subsessions[asyncId])
    else None
  }

  /** The `before` handler: the cursor moves to the owner, if there is one, and is otherwise left alone. */
  function BeforeStep<R>(p: Pool<R>, asyncId: nat): Pool<R>
  {
    match Owner(p, asyncId)
    case None => p
    case Some(o) => p.(active := Some(o))
  }

  /** The `after` handler ignores its argument. */
  function AfterStep<R>(p: Pool<R>, asyncId: nat): Pool<R>
  {
    p.(active := None)
  }

  /**
    The `destroy` handler: a session takes with it every link keyed by one of
    its refs, and in every case the link keyed by the id itself goes.
  */
  function DestroyStep<R>(p: Pool<R>, asyncId: nat): Pool<R>
  {
    if asyncId in p.sessions then
      Pool(p.sessions - {asyncId}, p.subsessions - p.sessions[asyncId].refs - {asyncId}, p.active)
    else
      p.(subsessions := p.subsessions - {asyncId})
  }

  /** `getCurrentResource`: the resource of the session the cursor names, if any. */
  function CurrentResource<R>(p: Pool<R>): Option<R>
  {
    if p.active.Some? && p.active.value in p.sessions then Some(p.sessions[p.active.value].resource)
    else None
  }

  /** Destroying each id of `ids` in turn. */
  function DestroyAll<R>(p: Pool<R>, ids: seq<nat>): Pool<R>
    decreases |ids|
  {
    if ids == [] then p else DestroyAll(DestroyStep(p, ids[0]), ids[1..])
  }

  // ---------------------------------------------------------------------------
  // The invariant linking the two maps

  /**
    Every link `k -> s` is truthy, names a live session `s`, and `k` is
    recorded in that session's refs.
  */
  predicate Valid<R>(p: Pool<R>)
  {
    forall k :: k in p.subsessions ==>
      p.subsessions[k] != 0 && p.subsessions[k] in p.sessions && k in p.sessions[p.subsessions[k]].refs
  }

  /** A truthy cursor names a live session; this is what keeps `init` from throwing. */
  predicate CursorLive<R>(p: Pool<R>)
  {
    Truthy(p.active) ==> p.active.value in p.sessions
  }

  lemma EmptyPoolValid<R>()
    ensures Valid(EmptyPool<R>()) && CursorLive(EmptyPool<R>()) && CurrentResource(EmptyPool<R>()) == None
  {
  }

  // ---------------------------------------------------------------------------
  // _register

  /** Registering overwrites: the id's session holds exactly the new resource and no refs; nothing else moves. */
  lemma RegisterOverwrites<R>(p: Pool<R>, asyncId: nat, resource: R)
    ensures var q := RegisterStep(p, asyncId, resource);
      && q.sessions.Keys == p.sessions.Keys + {asyncId}
      && q.sessions[asyncId].resource == resource && q.sessions[asyncId].refs == {}
      && (forall s :: s in p.sessions && s != asyncId ==> q.sessions[s] == p.sessions[s])
      && q.subsessions == p.subsessions && q.active == p.active
  {
  }

  /** A fresh registration keeps the invariant and the cursor's liveness. */
  lemma RegisterPreservesValid<R>(p: Pool<R>, asyncId: nat, resource: R)
    requires Valid(p) && asyncId !in p.sessions
    ensures Valid(RegisterStep(p, asyncId, resource))
    ensures CursorLive(p) ==> CursorLive(RegisterStep(p, asyncId, resource))
  {
  }

  /**
    Registering an id that is already a session with a child loses the child
    from its refs, so the invariant no longer holds.
  */
  lemma RegisterOverwriteBreaksValid<R>(p: Pool<R>, asyncId: nat, child: nat, resource: R)
    requires Valid(p) && child in p.subsessions && p.subsessions[child] == asyncId
    ensures !Valid(RegisterStep(p, asyncId, resource))
  {
    var q := RegisterStep(p, asyncId, resource);
    assert child in q.subsessions && q.subsessions[child] == asyncId;
    assert q.sessions[asyncId].refs == {};
  }

  // ---------------------------------------------------------------------------
  // init

  /** With a falsy cursor `init` neither throws nor changes anything. */
  lemma InitInactiveIsNoOp<R>(p: Pool<R>, asyncId: nat)
    requires !Truthy(p.active)
    ensures !InitThrows(p) && InitStep(p, asyncId) == p
  {
  }

  /**
    With a live active session `s`, `init` links the child to `s`, adds it to
    `s`'s refs, and leaves every other session, link and the cursor alone.
  */
  lemma InitLinksToActive<R>(p: Pool<R>, asyncId: nat)
    requires Truthy(p.active) && p.active.value in p.sessions
    ensures var q := InitStep(p, asyncId); var s := p.active.value;
      && !InitThrows(p)
      && q.subsessions == p.subsessions[asyncId := s]
      && q.sessions.Keys == p.sessions.Keys
      && q.sessions[s].resource == p.sessions[s].resource
      && q.sessions[s].refs == p.sessions[s].refs + {asyncId}
      && (forall t :: t in p.sessions && t != s ==> q.sessions[t] == p.sessions[t])
      && q.active == p.active
  {
  }

  lemma InitPreservesValid<R>(p: Pool<R>, asyncId: nat)
    requires Valid(p) && CursorLive(p)
    ensures !InitThrows(p)
    ensures Valid(InitStep(p, asyncId)) && CursorLive(InitStep(p, asyncId))
  {
    if Truthy(p.active) {
      var q := InitStep(p, asyncId);
      var s := p.active.value;
      forall k | k in q.subsessions
        ensures q.subsessions[k] != 0 && q.subsessions[k] in q.sessions && k in q.sessions[q.subsessions[k]].refs
      {
        if k != asyncId {
          var t := p.subsessions[k];
          assert k in p.sessions[t].refs;
        }
      }
    }
  }

  /**
    Once the active session has been destroyed, the cursor is stale and the
    next `init` throws, whatever id it carries.
  */
  lemma StaleCursorInitThrows<R>(p: Pool<R>, asyncId: nat)
    requires Truthy(p.active)
    ensures InitThrows(DestroyStep(p, p.active.value))
    ensures InitStep(DestroyStep(p, p.active.value), asyncId).subsessions[asyncId] == p.active.value
  {
  }

  // ---------------------------------------------------------------------------
  // before / after

  /**
    `before` never touches the maps. A tracked id moves the cursor to its
    owner, and under the invariant that owner is live, so its resource becomes
    current; an untracked id leaves the cursor and the current resource
    exactly as they were.
  */
  lemma BeforeResolvesOwner<R>(p: Pool<R>, asyncId: nat)
    ensures var q := BeforeStep(p, asyncId);
      && q.sessions == p.sessions && q.subsessions == p.subsessions
      && (Owner(p, asyncId).Some? ==> q.active == Owner(p, asyncId))
      && (Owner(p, asyncId).Some? && Valid(p) ==>
            Owner(p, asyncId).value in p.sessions &&
            CurrentResource(q) == Some(p.sessions[Owner(p, asyncId).value].resource))
      && (Owner(p, asyncId).None? ==> q.active == p.active && CurrentResource(q) == CurrentResource(p))
  {
    if Valid(p) && asyncId !in p.sessions && asyncId in p.subsessions {
      assert p.subsessions[asyncId] in p.sessions;
    }
  }

  /** Under the invariant the truthiness test on links in `before` is the same as membership. */
  lemma BeforeTruthinessIsMembership<R>(p: Pool<R>, asyncId: nat)
    requires Valid(p)
    ensures (asyncId in p.sessions || asyncId in p.subsessions) <==> Owner(p, asyncId).Some?
  {
  }

  lemma BeforePreservesValid<R>(p: Pool<R>, asyncId: nat)
    requires Valid(p) && CursorLive(p)
    ensures Valid(BeforeStep(p, asyncId)) && CursorLive(BeforeStep(p, asyncId))
  {
    if asyncId !in p.sessions && asyncId in p.subsessions {
      assert p.subsessions[asyncId] in p.sessions;
    }
  }

  /** `after` clears the cursor whatever the id, so no resource is current, and the maps are unchanged. */
  lemma AfterClearsCurrent<R>(p: Pool<R>, asyncId: nat)
    ensures var q := AfterStep(p, asyncId);
      && CurrentResource(q) == None && !Truthy(q.active)
      && q.sessions == p.sessions && q.subsessions == p.subsessions
      && (Valid(p) ==> Valid(q)) && CursorLive(q)
  {
  }

  /**
    A child created while session `s` is active is attributed to `s`: once the
    window has closed, `before` on the child makes `s`'s resource current again.
  */
  lemma CreatedChildResolvesToCreator<R>(p: Pool<R>, child: nat, closing: nat)
    requires Valid(p) && Truthy(p.active) && p.active.value in p.sessions
    requires child !in p.sessions
    ensures var q := BeforeStep(AfterStep(InitStep(p, child), closing), child);
      CurrentResource(q) == Some(p.sessions[p.active.value].resource)
  {
    InitLinksToActive(p, child);
    var r := AfterStep(InitStep(p, child), closing);
    assert child !in r.sessions && r.subsessions[child] == p.active.value;
    assert Owner(r, child) == Some(p.active.value);
  }

  /**
    Attribution is transitive: while a descendant of session `s` runs, the
    ids it creates are linked straight to `s`.
  */
  lemma DescendantInheritsOwner<R>(p: Pool<R>, child: nat, grandchild: nat)
    requires Valid(p) && child !in p.sessions && child in p.subsessions
    ensures var q := InitStep(BeforeStep(p, child), grandchild);
      && grandchild in q.subsessions && q.subsessions[grandchild] == p.subsessions[child]
      && grandchild in q.sessions[p.subsessions[child]].refs
      && Valid(q)
  {
    var s := p.subsessions[child];
    assert s != 0 && s in p.sessions;
    var b := BeforeStep(p, child);
    assert b.active == Some(s) && b.sessions == p.sessions && b.subsessions == p.subsessions;
    InitLinksToActive(b, grandchild);
    InitPreservesValid(b, grandchild);
  }

  // ---------------------------------------------------------------------------
  // destroy

  /**
    Destroying a session removes it and, under the invariant, every link that
    points at it; links that are neither the id nor one of its refs, and every
    other session, stay as they were.
  */
  lemma DestroySessionCascades<R>(p: Pool<R>, asyncId: nat)
    requires Valid(p) && asyncId in p.sessions
    ensures var q := DestroyStep(p, asyncId);
      && q.sessions.Keys == p.sessions.Keys - {asyncId}
      && (forall s :: s in q.sessions ==> q.sessions[s] == p.sessions[s])
      && asyncId !in q.subsessions
      && (forall k :: k in q.subsessions ==> q.subsessions[k] != asyncId)
      && (forall k :: k in p.subsessions && k != asyncId && k !in p.sessions[asyncId].refs ==>
            k in q.subsessions && q.subsessions[k] == p.subsessions[k])
      && q.active == p.active
  {
    var q := DestroyStep(p, asyncId);
    forall k | k in q.subsessions ensures q.subsessions[k] != asyncId {
      assert k in p.subsessions && k !in p.sessions[asyncId].refs;
    }
  }

  /** Destroying an id that is not a session removes only its own link. */
  lemma DestroyChildRemovesOwnLink<R>(p: Pool<R>, asyncId: nat)
    requires asyncId !in p.sessions
    ensures var q := DestroyStep(p, asyncId);
      && q.sessions == p.sessions && q.active == p.active
      && q.subsessions.Keys == p.subsessions.Keys - {asyncId}
      && (forall k :: k in q.subsessions ==> q.subsessions[k] == p.subsessions[k])
  {
  }

  /**
    `destroy` keeps the map invariant, and it keeps the cursor live unless the
    id destroyed is the active session itself (see `StaleCursorInitThrows`).
  */
  lemma DestroyPreservesValid<R>(p: Pool<R>, asyncId: nat)
    requires Valid(p)
    ensures Valid(DestroyStep(p, asyncId))
    ensures CursorLive(p) && !(Truthy(p.active) && p.active.value == asyncId) ==> CursorLive(DestroyStep(p, asyncId))
  {
    var q := DestroyStep(p, asyncId);
    forall k | k in q.subsessions
      ensures q.subsessions[k] != 0 && q.subsessions[k] in q.sessions && k in q.sessions[q.subsessions[k]].refs
    {
      assert k in p.subsessions && k in p.sessions[p.subsessions[k]].refs;
    }
  }

  /** `destroy` only ever removes keys: nothing it leaves behind is new. */
  lemma DestroyShrinks<R>(p: Pool<R>, asyncId: nat)
    ensures var q := DestroyStep(p, asyncId);
      && q.sessions.Keys <= p.sessions.Keys - {asyncId}
      && q.subsessions.Keys <= p.subsessions.Keys - {asyncId}
  {
  }

  /**
    Cleanup is complete: destroying, in any order, a list of ids that covers
    every key of both maps leaves both maps empty. This follows from a more
    general fact, `DestroyAllShrinks`.
  */
  lemma {:induction false} DestroyAllEmpties<R>(p: Pool<R>, ids: seq<nat>)
    requires forall k :: k in p.sessions ==> k in ids
    requires forall k :: k in p.subsessions ==> k in ids
    ensures DestroyAll(p, ids).sessions == map[] && DestroyAll(p, ids).subsessions == map[]
  {
    DestroyAllShrinks(p, ids);
    var q := DestroyAll(p, ids);
    assert forall k :: k !in q.sessions;
    assert forall k :: k !in q.subsessions;
  }

  /** After destroying every id of `ids`, the keys left are old keys that `ids` does not mention. */
  lemma {:induction false} DestroyAllShrinks<R>(p: Pool<R>, ids: seq<nat>)
    ensures forall k :: k in DestroyAll(p, ids).sessions ==> k in p.sessions && k !in ids
    ensures forall k :: k in DestroyAll(p, ids).subsessions ==> k in p.subsessions && k !in ids
    decreases |ids|
  {
    if ids != [] {
      var p' := DestroyStep(p, ids[0]);
      DestroyShrinks(p, ids[0]);
      DestroyAllShrinks(p', ids[1..]);
      assert DestroyAll(p, ids) == DestroyAll(p', ids[1..]);
      forall k | k in DestroyAll(p, ids).sessions ensures k in p.sessions && k !in ids {
        assert k in p'.sessions && k !in ids[1..];
        assert k != ids[0];
      }
      forall k | k in DestroyAll(p, ids).subsessions ensures k in p.subsessions && k !in ids {
        assert k in p'.subsessions && k !in ids[1..];
        assert k != ids[0];
      }
    }
  }

  /**
    Refs are never pruned when a child is destroyed. If the child's id is then
    reused under another session `t`, destroying the first session `s` also
    removes the child's new link to `t`, though `t` is still live.
  */
  lemma StaleRefRemovesForeignLink<R>(p: Pool<R>, s: nat, t: nat, child: nat)
    requires s in p.sessions && t in p.sessions && s != t && t != 0
    requires child in p.sessions[s].refs && child != s && child !in p.sessions
    requires p.active == Some(t)
    ensures var q := InitStep(DestroyStep(p, child), child);
      && child in q.subsessions && q.subsessions[child] == t
      && child !in DestroyStep(q, s).subsessions
      && t in DestroyStep(q, s).sessions
  {
    var d := DestroyStep(p, child);
    assert d.sessions == p.sessions;
    var q := InitStep(d, child);
    assert q.sessions[s].refs == p.sessions[s].refs;
  }

  /**
    An id may be both a session and a link: a resource whose own async id was
    created while another session was active is linked to that session, and
    registering it then adds a session under the same id. `before` prefers the
    session.
  */
  lemma NestedRegistrationUsesBothMaps<R>(p: Pool<R>, selfId: nat, resource: R)
    requires Truthy(p.active) && p.active.value in p.sessions && selfId != p.active.value
    ensures var q := RegisterStep(InitStep(p, selfId), selfId, resource);
      && selfId in q.sessions && selfId in q.subsessions
      && CurrentResource(BeforeStep(q, selfId)) == Some(resource)
  {
  }
}
