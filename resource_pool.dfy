/**
  The resource pool as the object the hook handlers mutate in place. Each
  method is specified by the step function of `PoolModel` it performs, so the
  properties proved there carry over to every call.
*/
module ResourcePools {
  import opened PoolModel

  class ResourcePool<R> {
    var sessions: map<nat, Session<R>>
    var subsessions: map<nat, nat>
    var activeSessionId: Option<nat>

    /** The pool's state as a value. */
    function State(): Pool<R>
      reads this
    {
      Pool(sessions, subsessions, activeSessionId)
    }

    /** Installing the hooks is the runtime's business; the state starts empty. */
    constructor ()
      ensures State() == EmptyPool()
    {
      sessions := map[];
      subsessions := map[];
      activeSessionId := None;
    }

    /** `_register`, where `asyncId` is what `resource.asyncId()` returns. */
    method Register(resource: R, asyncId: nat)
      modifies this
      ensures State() == RegisterStep(old(State()), asyncId, resource)
    {
      sessions := sessions[asyncId := Session(resource, {})];
    }

    /** The `init` hook; `threw` reports the TypeError raised when the cursor is stale. */
    method Init(asyncId: nat) returns (threw: bool)
      modifies this
      ensures threw == InitThrows(old(State()))
      ensures State() == InitStep(old(State()), asyncId)
    {
      threw := false;
      if activeSessionId.Some? && activeSessionId.value != 0 {
        var s := activeSessionId.value;
        subsessions := subsessions[asyncId := s];
        if s in sessions {
          var session := sessions[s];
          sessions := sessions[s := session.(refs := session.refs + {asyncId})];
        } else {
          threw := true;
        }
      }
    }

    /** The `before` hook. */
    method Before(asyncId: nat)
      modifies this
      ensures State() == BeforeStep(old(State()), asyncId)
    {
      if asyncId in sessions {
        activeSessionId := Some(asyncId);
      } else if asyncId in subsessions && subsessions[asyncId] != 0 {
        activeSessionId := Some(subsessions[asyncId]);
      }
    }

    /** The `after` hook. */
    method After(asyncId: nat)
      modifies this
      ensures State() == AfterStep(old(State()), asyncId)
    {
      activeSessionId := None;
    }

    /** The `destroy` hook: deletes the links of the session's refs one at a time. */
    method Destroy(asyncId: nat)
      modifies this
      ensures State() == DestroyStep(old(State()), asyncId)
    {
      if asyncId in sessions {
        var refs := sessions[asyncId].refs;
        var pending := refs;
        while pending != {}
          invariant pending <= refs
          invariant subsessions == old(subsessions) - (refs - pending)
          invariant sessions == old(sessions) && activeSessionId == old(activeSessionId)
          decreases pending
        {
          var ref :| ref in pending;
          subsessions := subsessions - {ref};
          pending := pending - {ref};
        }
        sessions := sessions - {asyncId};
      }
      subsessions := subsessions - {asyncId};
    }

    /** `getCurrentResource`: `None` stands for the `null` it returns. */
    method GetCurrentResource() returns (r: Option<R>)
      ensures r.Some? <==> activeSessionId.Some? && activeSessionId.value in sessions
      ensures r.Some? ==> r.value == sessions[activeSessionId.value].resource
      ensures r == CurrentResource(State())
    {
      if activeSessionId.Some? && activeSessionId.value in sessions {
        r := Some(sessions[activeSessionId.value].resource);
      } else {
        r := None;
      }
    }
  }

  /** The state of the test's pool once ids 2 and 3 have been linked to resource 1. */
  function LinkedState<R>(resource: R, active: Option<nat>): Pool<R>
  {
    Pool(map[1 := Session(resource, {2, 3})], map[2 := 1, 3 := 1], active)
  }

  lemma ScenarioOpensWindow<R>(resource: R)
    ensures var registered := RegisterStep(EmptyPool(), 1, resource);
      BeforeStep(InitStep(registered, 1), 1) == Pool(map[1 := Session(resource, {})], map[], Some(1))
  {
  }

  lemma ScenarioLinksChildren<R>(resource: R)
    ensures var open := Pool(map[1 := Session(resource, {})], map[], Some(1));
      InitStep(InitStep(open, 2), 3) == LinkedState(resource, Some(1))
  {
    var open := Pool(map[1 := Session(resource, {})], map[], Some(1));
    var none: set<nat> := {};
    assert none + {2} == {2};
    assert InitStep(open, 2) == Pool(map[1 := Session(resource, {2})], map[2 := 1], Some(1));
    assert {2} + {3} == {2, 3};
  }

  lemma ScenarioUntrackedRun<R>(resource: R)
    ensures BeforeStep(InitStep(AfterStep(LinkedState(resource, Some(1)), 1), 4), 4) == LinkedState(resource, None)
  {
  }

  lemma ScenarioTearsDown<R>(resource: R)
    ensures var closed := AfterStep(AfterStep(LinkedState(resource, Some(1)), 3), 4);
      DestroyStep(DestroyStep(closed, 2), 1) == EmptyPool()
  {
    var closed := AfterStep(AfterStep(LinkedState(resource, Some(1)), 3), 4);
    assert DestroyStep(closed, 2) == Pool(map[1 := Session(resource, {2, 3})], map[3 := 1], None);
  }

  /**
    The hook sequence of the pool's own test: resource 1 is registered, opens
    a window in which ids 2 and 3 are created, the window closes, 4 is created
    outside any window, 4 and then 3 run, and 2 and 1 are destroyed. Returns
    the current resource at each point the test observes it, the sizes of
    both maps at the end, and whether any `init` threw.
  */
  method AsyncHooksScenario<R>(resource: R)
    returns (inWindow: Option<R>, afterWindow: Option<R>, untracked: Option<R>, viaLink: Option<R>,
             sessionsLeft: nat, linksLeft: nat, anyThrew: bool)
    ensures !anyThrew
    ensures inWindow == Some(resource) && viaLink == Some(resource)
    ensures afterWindow == None && untracked == None
    ensures sessionsLeft == 0 && linksLeft == 0
  {
    ScenarioOpensWindow(resource);
    ScenarioLinksChildren(resource);
    ScenarioUntrackedRun(resource);
    ScenarioTearsDown(resource);
    var pool := new ResourcePool<R>();
    pool.Register(resource, 1);
    var threw1 := pool.Init(1);
    pool.Before(1);
    inWindow := pool.GetCurrentResource();
    var threw2 := pool.Init(2);
    var threw3 := pool.Init(3);
    assert pool.State() == LinkedState(resource, Some(1));
    pool.After(1);
    afterWindow := pool.GetCurrentResource();
    var threw4 := pool.Init(4);
    pool.Before(4);
    assert pool.State() == LinkedState(resource, None);
    untracked := pool.GetCurrentResource();
    pool.Before(3);
    viaLink := pool.GetCurrentResource();
    pool.After(3);
    pool.After(4);
    pool.Destroy(2);
    pool.Destroy(1);
    sessionsLeft := |pool.sessions|;
    linksLeft := |pool.subsessions|;
    anyThrew := threw1 || threw2 || threw3 || threw4;
  }
}
