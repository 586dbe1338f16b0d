/** Artefacts and their running instances: the repository, the registry, and the operations of the
    runtime that update both. */
module World {
  import opened Base

  // ---------------------------------------------------------------- urls as keys

  datatype Resource = Pipeline | Onramp | Offramp | Binding

  datatype Scope = PortScope | ServantScope | ArtefactScope | TypeScope

  datatype Url = Url(scope: Scope, host: string, resource: Option<Resource>, artefact: Option<string>,
                     instance: Option<string>, port: Option<string>)

  function TrimToInstance(u: Url): Url {
    u.(port := None, scope := ServantScope)
  }

  function TrimToArtefact(u: Url): Url {
    u.(port := None, instance := None, scope := ArtefactScope)
  }

  /** The key of an artefact, if the url names one of the right kind. */
  function ArtefactKey(kind: Resource, u: Url): Option<Url> {
    if u.resource == Some(kind) && u.artefact.Some? then Some(TrimToArtefact(u)) else None
  }

  /** The key of a servant, if the url names an instance of the right kind. */
  function ServantKey(kind: Resource, u: Url): Option<Url> {
    if u.resource == Some(kind) && u.instance.Some? then Some(TrimToInstance(u)) else None
  }

  /** A servant belongs to the same artefact as the url it was made from. */
  lemma TrimTwice(u: Url)
    ensures TrimToArtefact(TrimToInstance(u)) == TrimToArtefact(u)
  {
  }

  datatype Error = BadUrl | AlreadyPublished | NotFound | IsSystem | HasInstances | ServantExisted
                 | ServantMissing | SpawnFailed | LinkFailed

  // ---------------------------------------------------------------- repository

  datatype Wrapper = Wrapper(artefact: string, instances: seq<Url>, system: bool)

  type Artefacts = map<Url, Wrapper>

  function Without(instances: seq<Url>, sid: Url): seq<Url> {
    if instances == [] then []
    else (if instances[0] == sid then [] else [instances[0]]) + Without(instances[1..], sid)
  }

  lemma {:induction false} WithoutMembers(instances: seq<Url>, sid: Url)
    ensures forall x :: x in Without(instances, sid) <==> x in instances && x != sid
  {
    if instances != [] {
      WithoutMembers(instances[1..], sid);
      assert forall x :: x in instances <==> x == instances[0] || x in instances[1..];
    }
  }

  class Repository {
    var entries: Artefacts

    constructor ()
      ensures entries == map[]
    {
      entries := map[];
    }

    method Publish(id: Url, system: bool, artefact: string) returns (r: Result<string, Error>)
      modifies this
      ensures var key := TrimToArtefact(id);
              if key in old(entries) then r == Err(AlreadyPublished) && entries == old(entries)
              else r == Ok(artefact) && entries == old(entries)[key := Wrapper(artefact, [], system)]
    {
      var key := TrimToArtefact(id);
      if key in entries {
        return Err(AlreadyPublished);
      }
      entries := entries[key := Wrapper(artefact, [], system)];
      r := Ok(artefact);
    }

    method Unpublish(id: Url) returns (r: Result<string, Error>)
      modifies this
      ensures var key := TrimToArtefact(id);
              if key !in old(entries) then r == Err(NotFound) && entries == old(entries)
              else if old(entries)[key].system then r == Err(IsSystem) && entries == old(entries)
              else if old(entries)[key].instances != [] then r == Err(HasInstances) && entries == old(entries)
              else r == Ok(old(entries)[key].artefact) && entries == old(entries) - {key}
    {
      var key := TrimToArtefact(id);
      if key !in entries {
        return Err(NotFound);
      }
      var w := entries[key];
      if w.system {
        return Err(IsSystem);
      }
      if w.instances == [] {
        entries := entries - {key};
        return Ok(w.artefact);
      }
      r := Err(HasInstances);
    }

    method Bind(id: Url, sid: Url) returns (r: Result<string, Error>)
      modifies this
      ensures var key := TrimToArtefact(id);
              if key !in old(entries) then r == Err(NotFound) && entries == old(entries)
              else r == Ok(old(entries)[key].artefact) && entries == Bound(old(entries), key, TrimToInstance(sid))
    {
      var key := TrimToArtefact(id);
      if key !in entries {
        return Err(NotFound);
      }
      var w := entries[key];
      entries := entries[key := w.(instances := w.instances + [TrimToInstance(sid)])];
      r := Ok(w.artefact);
    }

    method Unbind(id: Url, sid: Url) returns (r: Result<string, Error>)
      modifies this
      ensures var key := TrimToArtefact(id);
              if key !in old(entries) then r == Err(NotFound) && entries == old(entries)
              else r == Ok(old(entries)[key].artefact) && entries == Unbound(old(entries), key, TrimToInstance(sid))
    {
      var key := TrimToArtefact(id);
      if key !in entries {
        return Err(NotFound);
      }
      var w := entries[key];
      entries := entries[key := w.(instances := Without(w.instances, TrimToInstance(sid)))];
      r := Ok(w.artefact);
    }
  }

  function Bound(entries: Artefacts, key: Url, sid: Url): Artefacts
    requires key in entries
  {
    entries[key := entries[key].(instances := entries[key].instances + [sid])]
  }

  function Unbound(entries: Artefacts, key: Url, sid: Url): Artefacts
    requires key in entries
  {
    entries[key := entries[key].(instances := Without(entries[key].instances, sid))]
  }

  // ---------------------------------------------------------------- registry

  /** A running servant, told apart by a number. */
  type Servant = nat

  type Servants = map<Url, Servant>

  class Registry {
    var entries: Servants

    constructor ()
      ensures entries == map[]
    {
      entries := map[];
    }

    /** Replaces a servant that is already there, and still reports an error. */
    method Publish(id: Url, servant: Servant) returns (r: Result<Servant, Error>)
      modifies this
      ensures entries == old(entries)[TrimToInstance(id) := servant]
      ensures r == if TrimToInstance(id) in old(entries) then Err(ServantExisted) else Ok(servant)
    {
      var key := TrimToInstance(id);
      var existed := key in entries;
      entries := entries[key := servant];
      r := if existed then Err(ServantExisted) else Ok(servant);
    }

    method Unpublish(id: Url) returns (r: Result<Servant, Error>)
      modifies this
      ensures entries == old(entries) - {TrimToInstance(id)}
      ensures var key := TrimToInstance(id);
              r == if key in old(entries) then Ok(old(entries)[key]) else Err(ServantMissing)
    {
      var key := TrimToInstance(id);
      if key in entries {
        r := Ok(entries[key]);
        entries := entries - {key};
      } else {
        r := Err(ServantMissing);
      }
    }
  }

  // ---------------------------------------------------------------- the runtime's operations

  /** Both indexes, for one kind of artefact. */
  datatype State = State(repo: Artefacts, reg: Servants)

  /** Calls; whether a servant can be spawned, and linked to the metrics pipeline, is up to the
      artefact, so it is part of the call. */
  datatype Op =
    | Publish(id: Url, system: bool, artefact: string)
    | Unpublish(id: Url)
    | Bind(id: Url, servant: Servant, spawns: bool, links: bool)
    | Unbind(id: Url)

  datatype Outcome = Outcome(state: State, result: Result<(), Error>)

  /** Onramps and offramps are taken out of the repository even if the registry did not know them. */
  predicate UnbindsAnyway(kind: Resource) { kind.Onramp? || kind.Offramp? }

  function Do(kind: Resource, s: State, op: Op): Outcome {
    match op
    case Publish(id, system, artefact) =>
      (match ArtefactKey(kind, id)
       case None => Outcome(s, Err(BadUrl))
       case Some(key) =>
         if key in s.repo then Outcome(s, Err(AlreadyPublished))
         else Outcome(s.(repo := s.repo[key := Wrapper(artefact, [], system)]), Ok(())))
    case Unpublish(id) =>
      (match ArtefactKey(kind, id)
       case None => Outcome(s, Err(BadUrl))
       case Some(key) =>
         if key !in s.repo then Outcome(s, Err(NotFound))
         else if s.repo[key].system then Outcome(s, Err(IsSystem))
         else if s.repo[key].instances != [] then Outcome(s, Err(HasInstances))
         else Outcome(s.(repo := s.repo - {key}), Ok(())))
    case Bind(id, servant, spawns, links) =>
      if kind == Binding then DoBindBinding(s, id, servant, spawns) else DoBind(kind, s, id, servant, spawns, links)
    case Unbind(id) =>
      if kind == Binding then DoUnbindBinding(s, id) else DoUnbind(kind, s, id)
  }

  /** Pipelines, onramps and offramps: looked up first, linked last. */
  function DoBind(kind: Resource, s: State, id: Url, servant: Servant, spawns: bool, links: bool): Outcome {
    match ArtefactKey(kind, id)
    case None => Outcome(s, Err(BadUrl))
    case Some(key) =>
      if key !in s.repo then Outcome(s, Err(NotFound))
      else if id.instance.None? then Outcome(s, Err(BadUrl))
      else if !spawns then Outcome(s, Err(SpawnFailed))
      else
        var sid := TrimToInstance(id);
        Outcome(State(Bound(s.repo, key, sid), s.reg[sid := servant]),
                if sid in s.reg then Err(ServantExisted) else if !links then Err(LinkFailed) else Ok(()))
  }

  function DoUnbind(kind: Resource, s: State, id: Url): Outcome {
    match ArtefactKey(kind, id)
    case None => Outcome(s, Err(BadUrl))
    case Some(key) =>
      if key !in s.repo then Outcome(s, Err(NotFound))
      else if id.instance.None? then Outcome(s, Err(BadUrl))
      else
        var sid := TrimToInstance(id);
        if sid in s.reg then Outcome(State(Unbound(s.repo, key, sid), s.reg - {sid}), Ok(()))
        else if UnbindsAnyway(kind) then Outcome(s.(repo := Unbound(s.repo, key, sid)), Err(ServantMissing))
        else Outcome(s, Err(ServantMissing))
  }

  /** Bindings: spawned before they are looked up, and linked by the caller. */
  function DoBindBinding(s: State, id: Url, servant: Servant, spawns: bool): Outcome {
    if id.instance.None? then Outcome(s, Err(BadUrl))
    else if !spawns then Outcome(s, Err(SpawnFailed))
    else
      match ArtefactKey(Binding, id)
      case None => Outcome(s, Err(BadUrl))
      case Some(key) =>
        if key !in s.repo then Outcome(s, Err(NotFound))
        else
          var sid := TrimToInstance(id);
          Outcome(State(Bound(s.repo, key, sid), s.reg[sid := servant]),
                  if sid in s.reg then Err(ServantExisted) else Ok(()))
  }

  /** The registry first: an artefact that cannot be found then is an error after the deed. */
  function DoUnbindBinding(s: State, id: Url): Outcome {
    match ServantKey(Binding, id)
    case None => Outcome(s, Err(BadUrl))
    case Some(sid) =>
      if sid !in s.reg then Outcome(s, Err(ServantMissing))
      else
        var t := s.(reg := s.reg - {sid});
        match ArtefactKey(Binding, id)
        case None => Outcome(t, Err(BadUrl))
        case Some(key) =>
          if key !in s.repo then Outcome(t, Err(NotFound))
          else Outcome(t.(repo := Unbound(s.repo, key, sid)), Ok(()))
  }

  class Runtime {
    const kind: Resource
    const repo: Repository
    const reg: Registry

    constructor (kind: Resource)
      ensures this.kind == kind && fresh(repo) && fresh(reg)
      ensures Abstract() == State(map[], map[])
    {
      this.kind := kind;
      repo := new Repository();
      reg := new Registry();
    }

    function Abstract(): State
      reads repo, reg
    {
      State(repo.entries, reg.entries)
    }

    method BindServant(id: Url, servant: Servant, spawns: bool, links: bool) returns (r: Result<(), Error>)
      modifies repo, reg
      ensures Outcome(Abstract(), r) == Do(kind, old(Abstract()), Bind(id, servant, spawns, links))
    {
      if kind == Binding {
        r := BindBinding(id, servant, spawns);
        return;
      }
      var key := ArtefactKey(kind, id);
      if key.None? {
        return Err(BadUrl);
      }
      if key.value !in repo.entries {
        return Err(NotFound);
      }
      if id.instance.None? {
        return Err(BadUrl);
      }
      if !spawns {
        return Err(SpawnFailed);
      }
      var bound := repo.Bind(id, id);
      assert bound.Ok?;
      var published := reg.Publish(id, servant);
      if published.Err? {
        return Err(published.error);
      }
      r := if links then Ok(()) else Err(LinkFailed);
    }

    method UnbindServant(id: Url) returns (r: Result<(), Error>)
      modifies repo, reg
      ensures Outcome(Abstract(), r) == Do(kind, old(Abstract()), Unbind(id))
    {
      if kind == Binding {
        r := UnbindBinding(id);
        return;
      }
      var key := ArtefactKey(kind, id);
      if key.None? {
        return Err(BadUrl);
      }
      if key.value !in repo.entries {
        return Err(NotFound);
      }
      if id.instance.None? {
        return Err(BadUrl);
      }
      var removed := reg.Unpublish(id);
      if removed.Err? && !UnbindsAnyway(kind) {
        assert reg.entries == old(reg.entries);
        return Err(removed.error);
      }
      assert removed.Err? ==> reg.entries == old(reg.entries);
      var unbound := repo.Unbind(id, id);
      assert unbound.Ok?;
      r := if removed.Err? then Err(removed.error) else Ok(());
    }

    method BindBinding(id: Url, servant: Servant, spawns: bool) returns (r: Result<(), Error>)
      modifies repo, reg
      ensures Outcome(Abstract(), r) == DoBindBinding(old(Abstract()), id, servant, spawns)
    {
      if id.instance.None? {
        return Err(BadUrl);
      }
      if !spawns {
        return Err(SpawnFailed);
      }
      if ArtefactKey(Binding, id).None? {
        return Err(BadUrl);
      }
      var bound := repo.Bind(id, id);
      if bound.Err? {
        return Err(NotFound);
      }
      var published := reg.Publish(id, servant);
      r := if published.Err? then Err(published.error) else Ok(());
    }

    method UnbindBinding(id: Url) returns (r: Result<(), Error>)
      modifies repo, reg
      ensures Outcome(Abstract(), r) == DoUnbindBinding(old(Abstract()), id)
    {
      if ServantKey(Binding, id).None? {
        return Err(BadUrl);
      }
      var removed := reg.Unpublish(id);
      if removed.Err? {
        assert reg.entries == old(reg.entries);
        return Err(removed.error);
      }
      if ArtefactKey(Binding, id).None? {
        return Err(BadUrl);
      }
      var unbound := repo.Unbind(id, id);
      r := if unbound.Err? then Err(NotFound) else Ok(());
    }
  }

  // ---------------------------------------------------------------- agreement

  /** The artefact's list mentions the servant. */
  predicate Listed(repo: Artefacts, sid: Url) {
    TrimToArtefact(sid) in repo && sid in repo[TrimToArtefact(sid)].instances
  }

  /** A servant is registered exactly when its own artefact's instance list mentions it, no list mentions
      a servant of another artefact, and only artefacts of the right kind are published. */
  ghost predicate Agree(kind: Resource, s: State) {
    && (forall sid :: sid in s.reg <==> Listed(s.repo, sid))
    && (forall key, sid :: key in s.repo && sid in s.repo[key].instances ==> TrimToArtefact(sid) == key)
    && forall key :: key in s.repo ==> ArtefactKey(kind, key) == Some(key)
  }

  lemma BoundAgrees(kind: Resource, s: State, sid: Url, servant: Servant)
    requires Agree(kind, s) && TrimToArtefact(sid) in s.repo
    ensures Agree(kind, State(Bound(s.repo, TrimToArtefact(sid), sid), s.reg[sid := servant]))
  {
    var key := TrimToArtefact(sid);
    var repo := Bound(s.repo, key, sid);
    assert forall x :: x in repo[key].instances <==> x in s.repo[key].instances || x == sid;
  }

  lemma UnboundAgrees(kind: Resource, s: State, sid: Url)
    requires Agree(kind, s) && TrimToArtefact(sid) in s.repo
    ensures Agree(kind, State(Unbound(s.repo, TrimToArtefact(sid), sid), s.reg - {sid}))
  {
    WithoutMembers(s.repo[TrimToArtefact(sid)].instances, sid);
  }

  /** The bind gets as far as changing both indexes. */
  predicate BindActs(kind: Resource, s: State, op: Op) {
    && op.Bind? && ArtefactKey(kind, op.id).Some? && TrimToArtefact(op.id) in s.repo
    && op.id.instance.Some? && op.spawns
  }

  lemma BindEffect(kind: Resource, s: State, op: Op)
    requires op.Bind?
    ensures var key, sid := TrimToArtefact(op.id), TrimToInstance(op.id);
            var t := Do(kind, s, op);
            if BindActs(kind, s, op) then
              && t.state == State(Bound(s.repo, key, sid), s.reg[sid := op.servant])
              && (t.result.Err? <==> sid in s.reg || (kind != Binding && !op.links))
            else t.state == s && t.result.Err?
  {
  }

  lemma UnbindEffect(kind: Resource, s: State, op: Op)
    requires Agree(kind, s) && op.Unbind?
    ensures var key, sid := TrimToArtefact(op.id), TrimToInstance(op.id);
            var t := Do(kind, s, op);
            if t.result.Ok? then key in s.repo && t.state == State(Unbound(s.repo, key, sid), s.reg - {sid})
            else t.state == s
    ensures op.id.instance.Some? && ArtefactKey(kind, op.id).Some? && TrimToInstance(op.id) in s.reg ==>
              Do(kind, s, op).result.Ok?
  {
    var key, sid := TrimToArtefact(op.id), TrimToInstance(op.id);
    TrimTwice(op.id);
    if sid in s.reg {
      assert Listed(s.repo, sid);
      assert ArtefactKey(kind, key) == Some(key);
    } else if key in s.repo {
      NotListed(kind, s, op.id);
      Untouched(s.repo, key, sid);
    }
  }

  lemma PublishAgrees(kind: Resource, s: State, op: Op)
    requires Agree(kind, s) && op.Publish?
    ensures Agree(kind, Do(kind, s, op).state)
  {
  }

  lemma UnpublishAgrees(kind: Resource, s: State, op: Op)
    requires Agree(kind, s) && op.Unpublish?
    ensures Agree(kind, Do(kind, s, op).state)
  {
  }

  lemma DoAgrees(kind: Resource, s: State, op: Op)
    requires Agree(kind, s)
    ensures Agree(kind, Do(kind, s, op).state)
  {
    match op {
      case Bind(id, servant, _, _) =>
        TrimTwice(id);
        BindEffect(kind, s, op);
        if BindActs(kind, s, op) {
          BoundAgrees(kind, s, TrimToInstance(id), servant);
        }
      case Unbind(id) =>
        TrimTwice(id);
        UnbindEffect(kind, s, op);
        if Do(kind, s, op).result.Ok? {
          UnboundAgrees(kind, s, TrimToInstance(id));
        }
      case Publish(id, _, _) => PublishAgrees(kind, s, op);
      case Unpublish(id) => UnpublishAgrees(kind, s, op);
    }
  }

  function After(kind: Resource, s: State, ops: seq<Op>): State
    decreases |ops|
  {
    if ops == [] then s else After(kind, Do(kind, s, ops[0]).state, ops[1..])
  }

  /** Repository and registry agree after any sequence of calls, failed ones included. */
  lemma {:induction false} AlwaysAgree(kind: Resource, s: State, ops: seq<Op>)
    requires Agree(kind, s)
    ensures Agree(kind, After(kind, s, ops))
    decreases |ops|
  {
    if ops != [] {
      DoAgrees(kind, s, ops[0]);
      AlwaysAgree(kind, Do(kind, s, ops[0]).state, ops[1..]);
    }
  }

  /** So an artefact can be unpublished exactly when it exists, is no system artefact, and none of
      its servants is running. */
  lemma UnpublishOnlyUnused(kind: Resource, ops: seq<Op>, id: Url)
    requires ArtefactKey(kind, id).Some?
    ensures var s := After(kind, State(map[], map[]), ops);
            var key := TrimToArtefact(id);
            Do(kind, s, Unpublish(id)).result.Ok? <==>
              key in s.repo && !s.repo[key].system && forall sid :: sid in s.reg ==> TrimToArtefact(sid) != key
  {
    AlwaysAgree(kind, State(map[], map[]), ops);
    var s := After(kind, State(map[], map[]), ops);
    var key := TrimToArtefact(id);
    if key in s.repo && s.repo[key].instances != [] {
      assert s.repo[key].instances[0] in s.repo[key].instances;
      assert Listed(s.repo, s.repo[key].instances[0]);
    }
  }

  /** A system artefact stays, whatever is called. */
  lemma {:induction false} SystemStays(kind: Resource, s: State, ops: seq<Op>, key: Url)
    requires key in s.repo && s.repo[key].system
    ensures key in After(kind, s, ops).repo && After(kind, s, ops).repo[key].system
    ensures After(kind, s, ops).repo[key].artefact == s.repo[key].artefact
    decreases |ops|
  {
    if ops != [] {
      SystemStays(kind, Do(kind, s, ops[0]).state, ops[1..], key);
    }
  }

  /** Exactly which calls report an error and have changed the indexes all the same: binds of an instance
      that was running already, and, except for bindings, binds that cannot be linked at the end. */
  lemma FailedYetChanged(kind: Resource, s: State, op: Op)
    requires Agree(kind, s)
    ensures var t := Do(kind, s, op);
            t.result.Err? && t.state != s <==>
              && BindActs(kind, s, op)
              && (TrimToInstance(op.id) in s.reg || (kind != Binding && !op.links))
  {
    if op.Bind? {
      BindEffect(kind, s, op);
      if BindActs(kind, s, op) {
        var key, sid := TrimToArtefact(op.id), TrimToInstance(op.id);
        assert |Bound(s.repo, key, sid)[key].instances| == |s.repo[key].instances| + 1;
      }
    } else if op.Unbind? {
      UnbindEffect(kind, s, op);
    }
  }

  /** What such a call leaves behind: the new servant in the place of the old one, listed once more; and
      one unbind removes every trace of it, and of what was there before. */
  lemma UndoneByUnbind(kind: Resource, s: State, op: Op)
    requires Agree(kind, s) && BindActs(kind, s, op)
    ensures var key, sid := TrimToArtefact(op.id), TrimToInstance(op.id);
            var t := Do(kind, s, op).state;
            var u := Do(kind, t, Unbind(op.id));
            && t.reg == s.reg[sid := op.servant]
            && t.repo[key].instances == s.repo[key].instances + [sid]
            && u.result == Ok(()) && u.state == State(Unbound(s.repo, key, sid), s.reg - {sid})
            && (sid !in s.reg ==> u.state == s)
  {
    var key, sid := TrimToArtefact(op.id), TrimToInstance(op.id);
    var t := Do(kind, s, op).state;
    BindEffect(kind, s, op);
    DoAgrees(kind, s, op);
    UnbindEffect(kind, t, Unbind(op.id));
    Restored(s, key, sid, op.servant);
    if sid !in s.reg {
      NotListed(kind, s, op.id);
    }
  }

  lemma NotListed(kind: Resource, s: State, id: Url)
    requires Agree(kind, s) && TrimToArtefact(id) in s.repo && TrimToInstance(id) !in s.reg
    ensures TrimToInstance(id) !in s.repo[TrimToArtefact(id)].instances
  {
    TrimTwice(id);
    assert !Listed(s.repo, TrimToInstance(id));
  }

  lemma Restored(s: State, key: Url, sid: Url, servant: Servant)
    requires key in s.repo
    ensures Unbound(Bound(s.repo, key, sid), key, sid) == Unbound(s.repo, key, sid)
    ensures s.reg[sid := servant] - {sid} == s.reg - {sid}
    ensures sid !in s.repo[key].instances && sid !in s.reg ==> State(Unbound(s.repo, key, sid), s.reg - {sid}) == s
  {
    WithoutSnoc(s.repo[key].instances, sid);
    if sid !in s.repo[key].instances {
      Untouched(s.repo, key, sid);
    }
  }

  lemma Untouched(repo: Artefacts, key: Url, sid: Url)
    requires key in repo && sid !in repo[key].instances
    ensures Unbound(repo, key, sid) == repo
  {
    WithoutNone(repo[key].instances, sid);
  }

  lemma {:induction false} WithoutNone(list: seq<Url>, sid: Url)
    requires sid !in list
    ensures Without(list, sid) == list
  {
    if list != [] {
      WithoutNone(list[1..], sid);
    }
  }

  lemma {:induction false} WithoutSnoc(list: seq<Url>, sid: Url)
    ensures Without(list + [sid], sid) == Without(list, sid)
  {
    var all := list + [sid];
    if list == [] {
      assert all == [sid] && all[1..] == [];
    } else {
      assert all[0] == list[0] && all[1..] == list[1..] + [sid];
      WithoutSnoc(list[1..], sid);
    }
  }
}
