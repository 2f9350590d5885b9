/** The finalizer protocol of the repository cache (controllers/repo-cache/repo_cache_handler.go).

    The API server keeps the versions of one Repository object; the reconciler reads some version,
    possibly old but never older than one it read before, and works through the steps of Reconcile.
    Between any two steps users, other controllers and API calls may act.  An update is rejected when
    the object has changed since it was read.  Reconciles of one object do not overlap.
 */
module RepoCache {
  import opened Text
  import opened Effects

  const FINALIZER := "config.porch.kpt.dev/porch-server"
  const MIGRATION_KEY := "porch.kpt.dev/v1alpha2-migration"
  const MIGRATION_ENABLED := "true"
  const READY := "Ready"

  datatype Condition = Condition(kind: string, status: string)

  datatype Repository = Repository(
    uid: nat,
    generation: nat,
    annotations: map<string, string>,
    conditions: seq<Condition>,
    finalizers: set<string>,
    deleting: bool)

  predicate IsRepositoryReady(r: Repository) {
    exists i :: 0 <= i < |r.conditions| && r.conditions[i].kind == READY && r.conditions[i].status == "True"
  }

  predicate Migrated(r: Repository) {
    MIGRATION_KEY in r.annotations && r.annotations[MIGRATION_KEY] == MIGRATION_ENABLED
  }

  predicate Guarded(r: Repository) {
    FINALIZER in r.finalizers
  }

  /* ---------- the state ---------- */

  /** Where the reconciler is; the repository is the copy it read, with its version number. */
  datatype Phase =
    | Idle
    | Evicting(repo: Repository, version: nat)
    | Removing(repo: Repository, version: nat)
    | Adding(repo: Repository, version: nat)
    | Opening(repo: Repository)

  /** versions[n] is the object at resource version n, None while it does not exist; seen is the newest
      version read so far; byReconcile is set by a reconcile that opened the repository and reset by eviction. */
  datatype State = State(
    versions: seq<Option<Repository>>,
    seen: nat,
    cached: bool,
    byReconcile: bool,
    phase: Phase)

  const INITIAL := State([None], 0, false, false, Idle)

  function Current(s: State): Option<Repository>
    requires s.versions != []
  {
    s.versions[|s.versions| - 1]
  }

  /** The server drops an object that is being deleted when its last finalizer goes. */
  function Settled(r: Repository): Option<Repository> {
    if r.deleting && r.finalizers == {} then None else Some(r)
  }

  function Write(s: State, r: Repository): State {
    s.(versions := s.versions + [Settled(r)])
  }

  /* ---------- the steps ---------- */

  datatype Action =
    | Create(repo: Repository)
    | Edit(repo: Repository)
    | Delete
    | OpenByApi
    | Get(version: nat)
    | Evict(effect: Effect)
    | RemoveFinalizer(effect: Effect)
    | AddFinalizer(effect: Effect)
    | Open(effect: Effect)

  ghost predicate Enabled(s: State, a: Action)
    requires s.versions != []
  {
    match a
    case Create(r) =>
      // A new object has a new identity.
      && Current(s).None? && !r.deleting
      && forall i :: 0 <= i < |s.versions| && s.versions[i].Some? ==> s.versions[i].value.uid != r.uid
    case Edit(r) =>
      // Anything but the identity and the deletion mark may change.  Nobody else removes this
      // controller's finalizer, and the server adds none to an object being deleted.
      && Current(s).Some?
      && var c := Current(s).value;
         && r.uid == c.uid && r.deleting == c.deleting
         && (Guarded(c) ==> Guarded(r))
         && (c.deleting ==> r.finalizers <= c.finalizers)
    case Delete => Current(s).Some?
    case OpenByApi => true
    case Get(v) => s.phase.Idle? && s.seen <= v < |s.versions|
    case Evict(_) => s.phase.Evicting?
    case RemoveFinalizer(_) => s.phase.Removing?
    case AddFinalizer(_) => s.phase.Adding?
    case Open(_) => s.phase.Opening?
  }

  /** What Reconcile does first with the object it got. */
  function Decide(read: Option<Repository>, version: nat): Phase {
    if read.None? then Idle
    else
      var r := read.value;
      if !r.deleting && Migrated(r) then Idle
      else if r.deleting then Evicting(r, version)
      else if !IsRepositoryReady(r) then Idle
      else if !Guarded(r) then Adding(r, version)
      else Opening(r)
  }

  /** An update goes through only from the current version. */
  predicate Fresh(s: State, version: nat) {
    version + 1 == |s.versions|
  }

  function Apply(s: State, a: Action): State
    requires s.versions != []
  {
    match a
    case Create(r) => Write(s, r)
    case Edit(r) => Write(s, r)
    case Delete =>
      if Current(s).None? || Current(s).value.deleting then s else Write(s, Current(s).value.(deleting := true))
    case OpenByApi => s.(cached := true)
    case Get(v) => if v < |s.versions| then s.(seen := v, phase := Decide(s.versions[v], v)) else s
    case Evict(e) =>
      if !s.phase.Evicting? then s
      else
        var s' := if TakesEffect(e) then s.(cached := false, byReconcile := false) else s;
        s'.(phase := if Succeeds(e) && Guarded(s.phase.repo) then Removing(s.phase.repo, s.phase.version) else Idle)
    case RemoveFinalizer(e) =>
      if !s.phase.Removing? then s
      else
        var r := s.phase.repo;
        var s' := if Fresh(s, s.phase.version) && TakesEffect(e)
                  then Write(s, r.(finalizers := r.finalizers - {FINALIZER})) else s;
        s'.(phase := Idle)
    case AddFinalizer(e) =>
      if !s.phase.Adding? then s
      else
        var r := s.phase.repo.(finalizers := s.phase.repo.finalizers + {FINALIZER});
        var s' := if Fresh(s, s.phase.version) && TakesEffect(e) then Write(s, r) else s;
        s'.(phase := if Fresh(s, s.phase.version) && Succeeds(e) then Opening(r) else Idle)
    case Open(e) =>
      if !s.phase.Opening? then s
      else
        var s' := if TakesEffect(e) then s.(cached := true, byReconcile := true) else s;
        s'.(phase := Idle)
  }

  /* ---------- the invariant ---------- */

  ghost predicate Holds(s: State, i: int, r: Repository) {
    0 <= i < |s.versions| && s.versions[i] == Some(r)
  }

  /** Deletion is never taken back. */
  ghost predicate DeletionSticks(s: State) {
    forall i, j, a, b :: i <= j && Holds(s, i, a) && Holds(s, j, b) && a.uid == b.uid && a.deleting ==> b.deleting
  }

  /** The reconciler has read a version of this object that was being deleted. */
  ghost predicate SeenDeleting(s: State, uid: nat) {
    exists k, d :: k <= s.seen && Holds(s, k, d) && d.uid == uid && d.deleting
  }

  /** The object of the given identity exists now and carries the finalizer. */
  ghost predicate GuardedNow(s: State, uid: nat) {
    s.versions != [] && Current(s).Some? && Current(s).value.uid == uid && Guarded(Current(s).value)
  }

  /** A finalizer once there stays until the reconciler has seen the deletion. */
  ghost predicate FinalizerSticks(s: State) {
    forall i, r :: Holds(s, i, r) && Guarded(r) ==> GuardedNow(s, r.uid) || SeenDeleting(s, r.uid)
  }

  ghost predicate PhaseHolds(s: State) {
    match s.phase
    case Idle => true
    case Evicting(r, v) => v <= s.seen && Holds(s, v, r) && r.deleting
    case Removing(r, v) => v <= s.seen && Holds(s, v, r) && r.deleting && !s.byReconcile
    case Adding(r, v) => v <= s.seen && Holds(s, v, r) && !r.deleting
    case Opening(r) => GuardedNow(s, r.uid)
  }

  /** A repository that a reconcile opened and that is still cached exists and has the finalizer. */
  ghost predicate Safe(s: State) {
    s.byReconcile ==> s.cached && exists uid :: GuardedNow(s, uid)
  }

  ghost predicate Inv(s: State) {
    s.versions != [] && DeletionSticks(s) && FinalizerSticks(s) && PhaseHolds(s) && Safe(s)
  }

  /* ---------- every write keeps the history in order ---------- */

  /** A version that may follow the current one. */
  ghost predicate Follows(s: State, r: Repository)
    requires s.versions != []
  {
    if Current(s).Some? then r.uid == Current(s).value.uid && (Current(s).value.deleting ==> r.deleting)
    else forall i, a :: Holds(s, i, a) ==> a.uid != r.uid
  }

  lemma HoldsAfterWrite(s: State, r: Repository)
    ensures var s' := Write(s, r);
            forall i, a :: Holds(s', i, a) <==> Holds(s, i, a) || (i == |s.versions| && Settled(r) == Some(a))
  {
  }

  lemma WriteKeepsDeletion(s: State, r: Repository)
    requires s.versions != [] && DeletionSticks(s) && Follows(s, r)
    ensures DeletionSticks(Write(s, r))
  {
    var s', n := Write(s, r), |s.versions|;
    HoldsAfterWrite(s, r);
    forall i, a | Holds(s, i, a) && a.uid == r.uid && a.deleting ensures r.deleting {
      assert Current(s).Some?;
      assert Holds(s, n - 1, Current(s).value);
    }
    hide Holds;
    assert Settled(r).Some? ==> Settled(r).value == r;
  }

  /** While the object is guarded, a write that keeps its identity and finalizer keeps it guarded. */
  lemma WriteKeepsGuard(s: State, r: Repository, uid: nat)
    requires GuardedNow(s, uid) && r.uid == uid && Guarded(r)
    ensures GuardedNow(Write(s, r), uid)
  {
  }

  lemma SeenAfterWrite(s: State, r: Repository, uid: nat)
    requires SeenDeleting(s, uid)
    ensures SeenDeleting(Write(s, r), uid)
  {
    var k, d :| k <= s.seen && Holds(s, k, d) && d.uid == uid && d.deleting;
    assert Holds(Write(s, r), k, d);
  }

  /** A write that drops the finalizer is allowed once the deletion was seen. */
  lemma WriteKeepsFinalizers(s: State, r: Repository)
    requires s.versions != [] && FinalizerSticks(s) && Follows(s, r)
    requires Current(s).Some? && Guarded(Current(s).value) ==> Guarded(r) || SeenDeleting(s, r.uid)
    ensures FinalizerSticks(Write(s, r))
  {
    var s' := Write(s, r);
    HoldsAfterWrite(s, r);
    forall i, a | Holds(s', i, a) && Guarded(a) ensures GuardedNow(s', a.uid) || SeenDeleting(s', a.uid) {
      if Holds(s, i, a) {
        if SeenDeleting(s, a.uid) {
          SeenAfterWrite(s, r, a.uid);
        } else if Guarded(r) {
          WriteKeepsGuard(s, r, a.uid);
        } else {
          SeenAfterWrite(s, r, r.uid);
        }
      }
    }
  }

  /* ---------- every step keeps the invariant ---------- */

  lemma UserWriteKeepsInv(s: State, r: Repository)
    requires Inv(s) && Follows(s, r)
    requires Current(s).Some? && Guarded(Current(s).value) ==> Guarded(r)
    ensures Inv(Write(s, r))
  {
    WriteKeepsDeletion(s, r);
    WriteKeepsFinalizers(s, r);
    hide DeletionSticks, FinalizerSticks;
    var s' := Write(s, r);
    HoldsAfterWrite(s, r);
    if s.phase.Opening? { WriteKeepsGuard(s, r, s.phase.repo.uid); }
    if s.byReconcile {
      var uid :| GuardedNow(s, uid);
      WriteKeepsGuard(s, r, uid);
    }
  }

  /** A read that finds the finalizer on a live object finds it still there. */
  lemma ReadGuardedIsGuarded(s: State, v: nat, r: Repository)
    requires Inv(s) && s.seen <= v && Holds(s, v, r) && Guarded(r) && !r.deleting
    ensures GuardedNow(s, r.uid)
  {
  }

  lemma GetKeepsInv(s: State, v: nat)
    requires Inv(s) && s.phase.Idle? && s.seen <= v < |s.versions|
    ensures Inv(Apply(s, Get(v)))
  {
    var s' := Apply(s, Get(v));
    forall uid | SeenDeleting(s, uid) ensures SeenDeleting(s', uid) {
      var k, d :| k <= s.seen && Holds(s, k, d) && d.uid == uid && d.deleting;
      assert Holds(s', k, d);
    }
    assert forall i, r :: Holds(s', i, r) <==> Holds(s, i, r);
    if s.versions[v].Some? {
      var r := s.versions[v].value;
      assert Holds(s, v, r);
      if Guarded(r) && !r.deleting { ReadGuardedIsGuarded(s, v, r); }
    }
    assert forall uid :: GuardedNow(s', uid) <==> GuardedNow(s, uid);
    SameHistory(s, s');
  }

  /** Steps that write nothing keep the history's laws. */
  lemma SameHistory(s: State, s': State)
    requires s'.versions == s.versions && s.seen <= s'.seen && DeletionSticks(s) && FinalizerSticks(s)
    ensures DeletionSticks(s') && FinalizerSticks(s')
    ensures forall uid :: GuardedNow(s, uid) ==> GuardedNow(s', uid)
  {
    assert forall i, r :: Holds(s', i, r) <==> Holds(s, i, r);
    forall i, r | Holds(s', i, r) && Guarded(r) ensures GuardedNow(s', r.uid) || SeenDeleting(s', r.uid) {
      if SeenDeleting(s, r.uid) {
        var k, d :| k <= s.seen && Holds(s, k, d) && d.uid == r.uid && d.deleting;
        assert Holds(s', k, d);
      }
    }
  }

  lemma RemoveKeepsInv(s: State, e: Effect)
    requires Inv(s) && s.phase.Removing?
    ensures Inv(Apply(s, RemoveFinalizer(e)))
  {
    var r, v := s.phase.repo, s.phase.version;
    var s' := Apply(s, RemoveFinalizer(e));
    var r' := r.(finalizers := r.finalizers - {FINALIZER});
    assert SeenDeleting(s, r.uid);
    if Fresh(s, v) && TakesEffect(e) {
      assert Current(s) == Some(r);
      WriteKeepsDeletion(s, r');
      WriteKeepsFinalizers(s, r');
      SameHistory(Write(s, r'), s');
    } else {
      SameHistory(s, s');
    }
  }

  lemma AddKeepsInv(s: State, e: Effect)
    requires Inv(s) && s.phase.Adding?
    ensures Inv(Apply(s, AddFinalizer(e)))
  {
    var r, v := s.phase.repo, s.phase.version;
    var s' := Apply(s, AddFinalizer(e));
    var r' := r.(finalizers := r.finalizers + {FINALIZER});
    if Fresh(s, v) && TakesEffect(e) {
      assert Current(s) == Some(r);
      UserWriteKeepsInv(s, r');
      assert GuardedNow(Write(s, r'), r.uid);
      SameHistory(Write(s, r'), s');
    } else {
      SameHistory(s, s');
    }
  }

  lemma OpenKeepsInv(s: State, e: Effect)
    requires Inv(s) && s.phase.Opening?
    ensures Inv(Apply(s, Open(e)))
  {
    SameHistory(s, Apply(s, Open(e)));
    assert GuardedNow(Apply(s, Open(e)), s.phase.repo.uid);
  }

  lemma EvictKeepsInv(s: State, e: Effect)
    requires Inv(s) && s.phase.Evicting?
    ensures Inv(Apply(s, Evict(e)))
  {
    var s' := Apply(s, Evict(e));
    SameHistory(s, s');
    assert forall i, r :: Holds(s', i, r) <==> Holds(s, i, r);
  }

  lemma OpenByApiKeepsInv(s: State)
    requires Inv(s)
    ensures Inv(Apply(s, OpenByApi))
  {
    var s' := Apply(s, OpenByApi);
    SameHistory(s, s');
    assert forall i, r :: Holds(s', i, r) <==> Holds(s, i, r);
  }

  lemma DeleteKeepsInv(s: State)
    requires Inv(s) && Current(s).Some?
    ensures Inv(Apply(s, Delete))
  {
    if !Current(s).value.deleting { UserWriteKeepsInv(s, Current(s).value.(deleting := true)); }
  }

  lemma CreateKeepsInv(s: State, r: Repository)
    requires Inv(s) && Enabled(s, Create(r))
    ensures Inv(Apply(s, Create(r)))
  {
    UserWriteKeepsInv(s, r);
  }

  lemma StepKeepsInv(s: State, a: Action)
    requires Inv(s) && Enabled(s, a)
    ensures Inv(Apply(s, a))
  {
    hide Inv, Apply;
    match a {
      case Create(r) => CreateKeepsInv(s, r);
      case Edit(r) => EditKeepsInv(s, r);
      case Delete => DeleteKeepsInv(s);
      case OpenByApi => OpenByApiKeepsInv(s);
      case Get(v) => GetKeepsInv(s, v);
      case Evict(e) => EvictKeepsInv(s, e);
      case RemoveFinalizer(e) => RemoveKeepsInv(s, e);
      case AddFinalizer(e) => AddKeepsInv(s, e);
      case Open(e) => OpenKeepsInv(s, e);
    }
  }

  lemma EditKeepsInv(s: State, r: Repository)
    requires Inv(s) && Enabled(s, Edit(r))
    ensures Inv(Apply(s, Edit(r)))
  {
    UserWriteKeepsInv(s, r);
  }

  /* ---------- every interleaving ---------- */

  function Run(actions: seq<Action>): (s: State)
    ensures s.versions != []
  {
    if actions == [] then INITIAL else Apply(Run(actions[..|actions| - 1]), actions[|actions| - 1])
  }

  ghost predicate Possible(actions: seq<Action>) {
    actions == [] ||
    (Possible(actions[..|actions| - 1]) && Enabled(Run(actions[..|actions| - 1]), actions[|actions| - 1]))
  }

  lemma {:induction false} RunKeepsInv(actions: seq<Action>)
    requires Possible(actions)
    ensures Inv(Run(actions))
  {
    if actions != [] {
      hide Inv, Apply, Enabled;
      RunKeepsInv(actions[..|actions| - 1]);
      StepKeepsInv(Run(actions[..|actions| - 1]), actions[|actions| - 1]);
    }
  }

  /** In every interleaving of reconcile steps, user steps and API calls, with any call failing: a
      repository opened by a reconcile and still cached has an API object, and it carries the finalizer. */
  lemma FinalizerOutlivesCacheEntry(actions: seq<Action>)
    requires Possible(actions)
    ensures var s := Run(actions); s.byReconcile ==> Current(s).Some? && Guarded(Current(s).value)
  {
    RunKeepsInv(actions);
  }

  lemma OneMore(actions: seq<Action>, a: Action)
    ensures Run(actions + [a]) == Apply(Run(actions), a)
    ensures Possible(actions + [a]) <==> Possible(actions) && Enabled(Run(actions), a)
  {
    hide Apply, Enabled;
    assert (actions + [a])[..|actions|] == actions;
  }

  /** The hypotheses can be met: every live repository that is ready and not migrated, with the finalizer
      or without, is opened in some run, under its finalizer. */
  lemma SomeRunOpens(repo: Repository)
    requires !repo.deleting && !Migrated(repo) && IsRepositoryReady(repo)
    ensures exists actions :: Possible(actions) && Run(actions).byReconcile && GuardedNow(Run(actions), repo.uid)
  {
    hide *;
    var actions := [] + [Create(repo)] + [Get(1)];
    ReadWhenReady(repo);
    if Guarded(repo) {
      GuardedAtOnce(Run(actions), repo);
      OpeningOpens(actions, repo.uid);
    } else {
      AddingGuards(Run(actions), repo);
      OneMore(actions, AddFinalizer(Done));
      OpeningOpens(actions + [AddFinalizer(Done)], repo.uid);
    }
  }

  lemma ReadWhenReady(repo: Repository)
    requires !repo.deleting && !Migrated(repo) && IsRepositoryReady(repo)
    ensures var actions := [] + [Create(repo)] + [Get(1)];
            && Possible(actions)
            && Run(actions) == State([None, Some(repo)], 1, false, false,
                                     if Guarded(repo) then Opening(repo) else Adding(repo, 1))
  {
    hide Migrated, IsRepositoryReady, Guarded, Possible, Run;
    FirstCreate(repo);
    OneMore([] + [Create(repo)], Get(1));
  }

  lemma FirstCreate(repo: Repository)
    requires !repo.deleting
    ensures var actions := [] + [Create(repo)];
            Possible(actions) && Run(actions) == State([None, Some(repo)], 0, false, false, Idle)
  {
    OneMore([], Create(repo));
    assert Run([]) == INITIAL && Possible([]);
    hide Possible, Run;
  }

  lemma GuardedAtOnce(s: State, repo: Repository)
    requires s.versions == [None, Some(repo)] && Guarded(repo)
    ensures GuardedNow(s, repo.uid)
  {
    hide Guarded;
  }

  lemma AddingGuards(s: State, repo: Repository)
    requires s.versions == [None, Some(repo)] && s.phase == Adding(repo, 1) && !repo.deleting
    ensures var s' := Apply(s, AddFinalizer(Done));
            Enabled(s, AddFinalizer(Done)) && s'.phase.Opening? && GuardedNow(s', repo.uid)
  {
  }

  lemma OpeningOpens(actions: seq<Action>, uid: nat)
    requires Possible(actions) && Run(actions).phase.Opening? && GuardedNow(Run(actions), uid)
    ensures exists more :: Possible(more) && Run(more).byReconcile && GuardedNow(Run(more), uid)
  {
    OneMore(actions, Open(Done));
    hide Possible, Run;
    assert GuardedNow(Run(actions + [Open(Done)]), uid);
  }

  /* ---------- what the reconciler works on ---------- */

  /** A live repository, not marked as migrated, with a condition Ready that is True. */
  ghost predicate ShouldOpen(r: Repository) {
    && !r.deleting
    && !("porch.kpt.dev/v1alpha2-migration" in r.annotations && r.annotations["porch.kpt.dev/v1alpha2-migration"] == "true")
    && exists i :: 0 <= i < |r.conditions| && r.conditions[i] == Condition("Ready", "True")
  }

  /** What a read leads to, for every object: an eviction exactly when it is being deleted, an opening
      exactly when it should be opened, first adding the finalizer where it is missing. */
  lemma ReadLeadsTo(s: State, v: nat)
    requires v < |s.versions|
    ensures var read, phase := s.versions[v], Apply(s, Get(v)).phase;
            if read == None then phase == Idle
            else
              var r := read.value;
              var guarded := "config.porch.kpt.dev/porch-server" in r.finalizers;
              phase == if r.deleting then Evicting(r, v)
                       else if !ShouldOpen(r) then Idle
                       else if guarded then Opening(r) else Adding(r, v)
  {
    if s.versions[v].Some? { ReadyMeans(s.versions[v].value); }
    hide IsRepositoryReady, ShouldOpen;
  }

  lemma ReadyMeans(r: Repository)
    ensures ShouldOpen(r) <==> !r.deleting && !Migrated(r) && IsRepositoryReady(r)
  {
  }

  /** A step of the reconciler that fails ends the reconcile; one that succeeds leads to the next. */
  lemma StepLeadsTo(s: State, a: Action)
    requires s.versions != []
    requires || (a.Evict? && s.phase.Evicting?) || (a.RemoveFinalizer? && s.phase.Removing?)
             || (a.AddFinalizer? && s.phase.Adding?) || (a.Open? && s.phase.Opening?)
    ensures var next := Apply(s, a).phase;
            next == if a.Evict? && a.effect == Done && FINALIZER in s.phase.repo.finalizers
                    then Removing(s.phase.repo, s.phase.version)
                    else if a.AddFinalizer? && a.effect == Done && s.phase.version == |s.versions| - 1
                    then Opening(s.phase.repo.(finalizers := s.phase.repo.finalizers + {FINALIZER}))
                    else Idle
  {
    hide Settled;
  }

  /** In every run, the reconciler adds its finalizer to and opens only what should be opened, and evicts
      and releases only what is being deleted. */
  lemma {:induction false} WorksOnRightCopy(actions: seq<Action>)
    ensures var phase := Run(actions).phase;
            && (phase.Adding? || phase.Opening? ==> ShouldOpen(phase.repo))
            && (phase.Adding? ==> FINALIZER !in phase.repo.finalizers)
            && (phase.Evicting? || phase.Removing? ==> phase.repo.deleting)
            && (phase.Removing? ==> FINALIZER in phase.repo.finalizers)
  {
    if actions != [] {
      hide ShouldOpen, Apply;
      var front, last := actions[..|actions| - 1], actions[|actions| - 1];
      WorksOnRightCopy(front);
      NextCopy(Run(front), last);
    }
  }

  lemma NextCopy(s: State, a: Action)
    requires s.versions != []
    ensures var phase, next := s.phase, Apply(s, a).phase;
            || next == Idle || next == phase
            || (a.Get? && a.version < |s.versions| && s.versions[a.version].Some?
                && var r := s.versions[a.version].value;
                   || (r.deleting && next == Evicting(r, a.version))
                   || (ShouldOpen(r) && FINALIZER in r.finalizers && next == Opening(r))
                   || (ShouldOpen(r) && FINALIZER !in r.finalizers && next == Adding(r, a.version)))
            || (phase.Evicting? && FINALIZER in phase.repo.finalizers && next == Removing(phase.repo, phase.version))
            || (phase.Adding? && next.Opening? && (ShouldOpen(phase.repo) ==> ShouldOpen(next.repo)))
  {
    if a.Get? && a.version < |s.versions| {
      ReadLeadsTo(s, a.version);
      hide Decide, ShouldOpen, Settled, Apply;
    } else {
      hide Decide, Settled, IsRepositoryReady, Migrated;
    }
  }

  /** Action i is a read that returned a version that should be opened. */
  ghost predicate ReadsOpenable(actions: seq<Action>, i: int) {
    && 0 <= i < |actions| && actions[i].Get?
    && var versions := Run(actions[..i]).versions;
       var v := actions[i].version;
       v < |versions| && versions[v].Some? && ShouldOpen(versions[v].value)
  }

  /** In every run, a repository that a reconcile opened, or is about to, was read by it as one that should
      be opened. */
  lemma {:induction false} OpenedWasReady(actions: seq<Action>)
    ensures var s := Run(actions);
            s.byReconcile || s.phase.Adding? || s.phase.Opening? ==> exists i :: ReadsOpenable(actions, i)
  {
    if actions != [] {
      hide ShouldOpen, Apply;
      var n := |actions| - 1;
      var front, last := actions[..n], actions[n];
      OpenedWasReady(front);
      NextCopy(Run(front), last);
      CacheStep(Run(front), last);
      if i :| ReadsOpenable(front, i) {
        assert front[..i] == actions[..i];
        assert ReadsOpenable(actions, i);
      }
      if last.Get? && (Run(actions).phase.Adding? || Run(actions).phase.Opening?) && Run(actions).phase != Run(front).phase {
        assert ReadsOpenable(actions, n);
      }
    }
  }

  /** The reconciler changes nothing of the object but its own finalizer, and only from the current
      version. */
  lemma WritesOnlyFinalizer(s: State, a: Action)
    requires Inv(s) && Enabled(s, a) && !a.Create? && !a.Edit? && !a.Delete?
    ensures var after := Apply(s, a).versions;
            || after == s.versions
            || (&& Current(s).Some? && (a.AddFinalizer? || a.RemoveFinalizer?) && s.phase.version == |s.versions| - 1
                && var c := Current(s).value;
                   var f := if a.AddFinalizer? then c.finalizers + {FINALIZER} else c.finalizers - {FINALIZER};
                   after == s.versions + [if c.deleting && f == {} then None else Some(c.(finalizers := f))])
  {
    hide Decide, DeletionSticks, FinalizerSticks, Safe;
  }

  /** An API call has opened the repository since its last eviction. */
  ghost predicate OpenedByApi(actions: seq<Action>) {
    actions != [] &&
    var front, last := actions[..|actions| - 1], actions[|actions| - 1];
    last.OpenByApi? || (OpenedByApi(front) && !(last.Evict? && Run(front).phase.Evicting? && TakesEffect(last.effect)))
  }

  /** In every run, the repository is cached exactly when a reconcile or an API call opened it since its
      last eviction. */
  lemma {:induction false} CachedIff(actions: seq<Action>)
    ensures Run(actions).cached <==> Run(actions).byReconcile || OpenedByApi(actions)
  {
    if actions != [] {
      hide Apply;
      var front, last := actions[..|actions| - 1], actions[|actions| - 1];
      CachedIff(front);
      CacheStep(Run(front), last);
    }
  }

  lemma CacheStep(s: State, a: Action)
    requires s.versions != []
    ensures var s', evicted := Apply(s, a), a.Evict? && s.phase.Evicting? && TakesEffect(a.effect);
            var opens := a.Open? && s.phase.Opening? && TakesEffect(a.effect);
            && s'.cached == (a.OpenByApi? || opens || (s.cached && !evicted))
            && s'.byReconcile == (opens || (s.byReconcile && !evicted))
  {
    hide Decide, Settled;
  }

  /** So while there is no API object that carries the finalizer, and in particular when the object is
      gone, the repository is cached exactly if an API call has opened it since its last eviction. */
  lemma UnguardedCachedIff(actions: seq<Action>)
    requires Possible(actions)
    ensures var s := Run(actions);
            !(Current(s).Some? && Guarded(Current(s).value)) ==> (s.cached <==> OpenedByApi(actions))
  {
    hide Guarded;
    CachedIff(actions);
    FinalizerOutlivesCacheEntry(actions);
  }

  /** And there are such entries: opened by an API call between the eviction and the removal of the
      finalizer, one outlives its object. */
  lemma EntryCanOutliveObject(repo: Repository)
    requires !repo.deleting && repo.finalizers == {FINALIZER}
    ensures exists actions :: Possible(actions) && Run(actions).cached && Current(Run(actions)).None?
  {
    hide Possible, Run;
    var gone := repo.(deleting := true);
    var a0 := [] + [Create(repo)];
    var a1 := a0 + [Delete];
    var a2 := a1 + [Get(2)];
    var a3 := a2 + [Evict(Done)];
    var a4 := a3 + [OpenByApi];
    FirstCreate(repo);
    OneMore(a0, Delete);
    OneMore(a1, Get(2));
    OneMore(a2, Evict(Done));
    OneMore(a3, OpenByApi);
    OneMore(a4, RemoveFinalizer(Done));
    assert Run(a1) == State([None, Some(repo), Some(gone)], 0, false, false, Idle);
    assert Run(a2).phase == Evicting(gone, 2) && Run(a2).versions == [None, Some(repo), Some(gone)];
    assert Run(a4) == State([None, Some(repo), Some(gone)], 2, true, false, Removing(gone, 2));
    assert Possible(a4 + [RemoveFinalizer(Done)]);
  }

  /** In every interleaving, an update that removes the finalizer comes after an eviction: the repository
      is not cached, unless an API call has opened it since. */
  lemma RemovalFollowsEviction(actions: seq<Action>)
    requires Possible(actions) && Run(actions).phase.Removing?
    ensures !Run(actions).byReconcile && Run(actions).phase.repo.deleting
    ensures Run(actions).cached <==> OpenedByApi(actions)
  {
    RunKeepsInv(actions);
    CachedIff(actions);
  }

  /* ---------- the event filter ---------- */

  /** repoCachePredicate on an update event. */
  predicate UpdatePasses(older: Repository, newer: Repository) {
    !older.deleting && (newer.generation != older.generation || newer.deleting || !Guarded(newer))
  }

  /** The deliveries of an informer: a create event for the first version, then an update event from
      each delivered version to the next.  Event i carries versions[i]. */
  predicate EventPasses(versions: seq<Repository>, i: int)
    requires 0 <= i < |versions|
  {
    i == 0 || UpdatePasses(versions[i - 1], versions[i])
  }

  /** The filter drops an update exactly when it follows a version being deleted, or when the object is
      live, keeps its generation and has the finalizer: a change of status only. */
  lemma FilteredIff(versions: seq<Repository>, i: int)
    requires 0 < i < |versions|
    ensures !EventPasses(versions, i) <==>
              || versions[i - 1].deleting
              || (!versions[i].deleting && versions[i].generation == versions[i - 1].generation
                  && "config.porch.kpt.dev/porch-server" in versions[i].finalizers)
  {
  }

  /** No eviction is lost: whatever versions were skipped, if a delivered version is being deleted then an
      event that passes carries one, not later than the first such delivery. */
  lemma {:induction false} DeletionPasses(versions: seq<Repository>, k: int)
    requires 0 <= k < |versions| && versions[k].deleting
    ensures exists i :: 0 <= i <= k && versions[i].deleting && EventPasses(versions, i)
  {
    if k > 0 && versions[k - 1].deleting {
      DeletionPasses(versions, k - 1);
    } else {
      assert EventPasses(versions, k);
    }
  }
}
